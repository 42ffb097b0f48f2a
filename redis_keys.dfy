/**
 * Redis key naming (apps/api/api/core/redis.py): every key the backend uses
 * gets a ':' suffix.
 */
module RedisKeys {

  /** `add_key`: the key with ':' appended. */
  function AddKey(key: string): (r: string)
    ensures |r| == |key| + 1
    ensures r[..|key|] == key && r[|key|] == ':'
  {
    key + ":"
  }

  /** Different keys never collide once suffixed. */
  lemma AddKeyInjective(a: string, b: string)
    requires AddKey(a) == AddKey(b)
    ensures a == b
  {
    assert a == AddKey(a)[..|a|];
    assert b == AddKey(b)[..|b|];
  }

  /** The one key under which the refresh task writes and the trains endpoint reads. */
  const TrainPositionsKey: string := AddKey("train-positions")

  lemma TrainPositionsKeyValue()
    ensures TrainPositionsKey == "train-positions:"
  {
  }
}
