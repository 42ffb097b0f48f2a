/**
 * The OpenAPI operation-id generator of the API application
 * (apps/api/api/main.py): route function names in snake_case become
 * camelCase identifiers.
 */
module ApiMain {
  import opened Wrappers
  import opened Strings

  /** Python `str.capitalize`: first character upper-cased, the rest lower-cased. */
  function Capitalize(s: string): (r: string)
    ensures |r| == |s|
    ensures |s| > 0 ==> r[0] == UpperChar(s[0]) && r[1..] == ToLowerCase(s[1..])
  {
    if |s| == 0 then "" else [UpperChar(s[0])] + ToLowerCase(s[1..])
  }

  /** The total number of characters in the pieces. */
  function TotalLength(parts: seq<string>): nat {
    if |parts| == 0 then 0 else |parts[0]| + TotalLength(parts[1..])
  }

  /**
   * `"".join(part.capitalize() for part in parts)`: as many characters as the
   * pieces together; piece by piece, see `ConcatCapitalizedAppend`.
   */
  function ConcatCapitalized(parts: seq<string>): (r: string)
    ensures |r| == TotalLength(parts)
  {
    if |parts| == 0 then "" else Capitalize(parts[0]) + ConcatCapitalized(parts[1..])
  }

  /** The join distributes over the pieces: each piece is capitalized on its own. */
  lemma {:induction false} ConcatCapitalizedAppend(a: seq<string>, b: seq<string>)
    ensures ConcatCapitalized(a + b) == ConcatCapitalized(a) + ConcatCapitalized(b)
    decreases |a|
  {
    if |a| == 0 {
      assert a + b == b;
    } else {
      ConcatCapitalizedAppend(a[1..], b);
      ConcatCapitalizedAppendStep(a[0], a[1..], b);
      assert a == [a[0]] + a[1..];
    }
  }

  /** The inductive step of `ConcatCapitalizedAppend`: one more piece in front. */
  lemma ConcatCapitalizedAppendStep(w: string, t: seq<string>, b: seq<string>)
    requires ConcatCapitalized(t + b) == ConcatCapitalized(t) + ConcatCapitalized(b)
    ensures ConcatCapitalized([w] + t + b) == ConcatCapitalized([w] + t) + ConcatCapitalized(b)
  {
    assert [w] + t + b == [w] + (t + b);
    ConcatCapitalizedCons(w, t + b);
    ConcatCapitalizedCons(w, t);
    AppendAssoc(Capitalize(w), ConcatCapitalized(t), ConcatCapitalized(b));
  }

  /** Unfolding one step: the first piece, capitalized, then the rest. */
  lemma ConcatCapitalizedCons(w: string, rest: seq<string>)
    ensures ConcatCapitalized([w] + rest) == Capitalize(w) + ConcatCapitalized(rest)
  {
    assert ([w] + rest)[0] == w && ([w] + rest)[1..] == rest;
  }

  lemma AppendAssoc(x: string, y: string, z: string)
    ensures x + (y + z) == (x + y) + z
  {
  }

  /** A single piece is capitalized. */
  lemma ConcatCapitalizedSingle(w: string)
    ensures ConcatCapitalized([w]) == Capitalize(w)
  {
    assert [w][1..] == [];
  }

  /**
   * `custom_generate_unique_id`: a non-empty `operation_id` is used as is;
   * otherwise the route name is split on '_', the first piece is kept and each
   * later piece is capitalized, with no separator between them.
   */
  function GenerateUniqueId(operationId: Option<string>, name: string): (r: string)
    ensures operationId.Some? && operationId.value != "" ==> r == operationId.value
    ensures !(operationId.Some? && operationId.value != "") ==> '_' !in r
  {
    if operationId.Some? && operationId.value != "" then operationId.value
    else
      var parts := Split(name, '_');
      NoUnderscoreInConcat(parts[1..]);
      parts[0] + ConcatCapitalized(parts[1..])
  }

  lemma {:induction false} NoUnderscoreInConcat(parts: seq<string>)
    requires forall k :: 0 <= k < |parts| ==> '_' !in parts[k]
    ensures '_' !in ConcatCapitalized(parts)
  {
    if |parts| > 0 {
      NoUnderscoreInConcat(parts[1..]);
      var p := parts[0];
      forall k | 0 <= k < |p| ensures Capitalize(p)[k] != '_' {
        CaseMappingKeepsUnderscore(p[k]);
      }
    }
  }

  /** A route name without underscores is its own operation id. */
  lemma NameWithoutUnderscoreUnchanged(name: string)
    requires '_' !in name
    ensures GenerateUniqueId(None, name) == name
  {
    SplitWithoutSeparator(name, '_');
  }

  /**
   * A route name of any number of underscore-free pieces: the first piece is
   * kept, every later piece is capitalized, and the separators are dropped.
   */
  lemma JoinedName(ws: seq<string>)
    requires |ws| >= 1
    requires forall k :: 0 <= k < |ws| ==> '_' !in ws[k]
    ensures GenerateUniqueId(None, Join(ws, '_')) == ws[0] + ConcatCapitalized(ws[1..])
  {
    SplitJoin(ws, '_');
  }

  /** A name of three underscore-free words joins them, capitalizing the last two. */
  lemma ThreeWordName(a: string, b: string, c: string)
    requires '_' !in a && '_' !in b && '_' !in c
    ensures GenerateUniqueId(None, a + "_" + b + "_" + c) == a + Capitalize(b) + Capitalize(c)
  {
    var ws := [a, b, c];
    JoinTwo(b, c, '_');
    assert ws == [a] + [b, c];
    JoinCons(a, [b, c], '_');
    AppendAssoc(a + "_" + b, "_", c);
    AppendAssoc(a + "_", b, "_" + c);
    AppendAssoc(b, "_", c);
    JoinedName(ws);
    assert ws[1..] == [b] + [c];
    ConcatCapitalizedCons(b, [c]);
    ConcatCapitalizedSingle(c);
  }

  lemma CapitalizeWords()
    ensures Capitalize("redis") == "Redis" && Capitalize("status") == "Status"
  {
    LowerCaseWord("edis");
    LowerCaseWord("tatus");
  }

  /** A word of ASCII lower-case letters is already lower-cased. */
  lemma LowerCaseWord(w: string)
    requires forall k :: 0 <= k < |w| ==> 'a' <= w[k] <= 'z'
    ensures ToLowerCase(w) == w
  {
  }

  /** The Redis status route `get_redis_status` gets the id `getRedisStatus`. */
  lemma RedisStatusExample()
    ensures GenerateUniqueId(None, "get" + "_" + "redis" + "_" + "status") == "get" + "Redis" + "Status"
  {
    ThreeWordName("get", "redis", "status");
    CapitalizeWords();
  }

  /** The trains route `get_trains` gets the id `getTrains`. */
  lemma GetTrainsExample()
    ensures GenerateUniqueId(None, "get" + "_" + "trains") == "get" + "Trains"
  {
    var ws := ["get", "trains"];
    JoinTwo("get", "trains", '_');
    JoinedName(ws);
    assert ws[1..] == ["trains"];
    ConcatCapitalizedSingle("trains");
    CapitalizeTrains();
  }

  lemma CapitalizeTrains()
    ensures Capitalize("trains") == "Trains"
  {
    LowerCaseWord("rains");
  }
}
