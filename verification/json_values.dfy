/**
 Decoded JSON values, as `json.loads` hands them to the program, and the
 Python `dict` that a JSON object becomes.
 */
module JsonValues {
  import opened Wrappers
  import opened OrderedMaps

  /**
   A decoded JSON value. Numbers keep their literal text: the program never
   does arithmetic on them, it only stores and displays them. An object keeps
   its members in textual order, duplicates included, exactly as parsed.
   */
  datatype Json =
    | JNull
    | JBool(b: bool)
    | JNumber(literal: string)
    | JString(text: string)
    | JArray(elements: seq<Json>)
    | JObject(members: seq<(string, Json)>)

  /** The member names of an object, in textual order. */
  function MemberKeys(members: seq<(string, Json)>): (ks: seq<string>)
    ensures |ks| == |members|
    ensures forall i :: 0 <= i < |members| ==> ks[i] == members[i].0
    decreases |members|
  {
    if |members| == 0 then []
    else MemberKeys(members[..|members| - 1]) + [members[|members| - 1].0]
  }

  /** Position of the first occurrence of `k` in `ks`. */
  function FirstIndex(ks: seq<string>, k: string): (r: nat)
    requires k in ks
    ensures r < |ks| && ks[r] == k
    ensures forall j :: 0 <= j < r ==> ks[j] != k
  {
    if ks[0] == k then 0 else 1 + FirstIndex(ks[1..], k)
  }

  /**
   The Python `dict` built from an object's members: they are stored one by
   one in textual order, so a repeated name keeps the position of its first
   occurrence and takes the value of its last.
   */
  function AsDict(members: seq<(string, Json)>): (d: OMap<Json>)
    ensures forall i :: 0 <= i < |members| ==> members[i].0 in d.values
    ensures forall k :: k in d.values ==> k in MemberKeys(members)
    decreases |members|
  {
    if |members| == 0 then Empty()
    else
      var init, last := members[..|members| - 1], members[|members| - 1];
      var d0 := AsDict(init);
      assert forall i :: 0 <= i < |init| ==> init[i] == members[i];
      assert MemberKeys(members) == MemberKeys(init) + [last.0];
      Put(d0, last.0, last.1)
  }

  /** The value a name maps to is the one of its last occurrence. */
  lemma {:induction false} AsDictLastWins(members: seq<(string, Json)>, i: nat)
    requires i < |members|
    requires forall j :: i < j < |members| ==> members[j].0 != members[i].0
    ensures members[i].0 in AsDict(members).values
    ensures AsDict(members).values[members[i].0] == members[i].1
    decreases |members|
  {
    var init := members[..|members| - 1];
    var last := members[|members| - 1];
    assert AsDict(members) == Put(AsDict(init), last.0, last.1);
    if i < |members| - 1 {
      AsDictLastWins(init, i);
      assert init[i] == members[i];
      assert Get(AsDict(members), members[i].0) == Get(AsDict(init), members[i].0);
    } else {
      assert Get(AsDict(members), last.0) == Some(last.1);
    }
  }

  /** Appending a name does not move the first occurrence of a name already present. */
  lemma FirstIndexAppend(ks: seq<string>, x: string, k: string)
    requires k in ks
    ensures FirstIndex(ks + [x], k) == FirstIndex(ks, k)
  {
    var r1 := FirstIndex(ks, k);
    assert (ks + [x])[r1] == k;
  }

  /** `dks` lists names in the order in which they first occur in `ks`. */
  ghost predicate InFirstOccurrenceOrder(dks: seq<string>, ks: seq<string>)
    requires forall k :: k in dks ==> k in ks
  {
    forall a, b :: 0 <= a < b < |dks| ==> FirstIndex(ks, dks[a]) < FirstIndex(ks, dks[b])
  }

  /** The dict lists its names in the order of their first occurrence. */
  lemma {:induction false} AsDictKeyOrder(members: seq<(string, Json)>)
    ensures InFirstOccurrenceOrder(AsDict(members).keys, MemberKeys(members))
    decreases |members|
  {
    if |members| > 0 {
      var init := members[..|members| - 1];
      var last := members[|members| - 1];
      var d0, ks0 := AsDict(init), MemberKeys(init);
      assert AsDict(members) == Put(d0, last.0, last.1);
      assert MemberKeys(members) == ks0 + [last.0];
      assert forall k :: k in ks0 ==> k in d0.keys by {
        forall k | k in ks0
          ensures k in d0.keys
        {
          var i := FirstIndex(ks0, k);
          assert init[i].0 == k;
        }
      }
      AsDictKeyOrder(init);
      KeyOrderStep(d0.keys, ks0, last.0);
    }
  }

  /** One step of `AsDict`: storing one more name keeps the first-occurrence order. */
  lemma KeyOrderStep(dks: seq<string>, ks: seq<string>, x: string)
    requires forall k :: k in dks ==> k in ks
    requires forall k :: k in ks ==> k in dks
    requires InFirstOccurrenceOrder(dks, ks)
    ensures forall k :: k in dks ==> k in ks + [x]
    ensures x !in dks ==> forall k :: k in dks + [x] ==> k in ks + [x]
    ensures x in dks ==> InFirstOccurrenceOrder(dks, ks + [x])
    ensures x !in dks ==> InFirstOccurrenceOrder(dks + [x], ks + [x])
  {
    forall k | k in dks
      ensures FirstIndex(ks + [x], k) == FirstIndex(ks, k)
    {
      FirstIndexAppend(ks, x, k);
    }
    if x !in dks {
      var dks', ks' := dks + [x], ks + [x];
      assert FirstIndex(ks', x) == |ks|;
      forall a, b | 0 <= a < b < |dks'|
        ensures FirstIndex(ks', dks'[a]) < FirstIndex(ks', dks'[b])
      {
        assert dks'[a] == dks[a];
        if b < |dks| {
          assert dks'[b] == dks[b];
        }
      }
    }
  }

  /** With distinct member names, the dict lists exactly those names in textual order. */
  lemma {:induction false} AsDictDistinctKeys(members: seq<(string, Json)>)
    requires forall i, j :: 0 <= i < j < |members| ==> members[i].0 != members[j].0
    ensures AsDict(members).keys == MemberKeys(members)
    decreases |members|
  {
    if |members| > 0 {
      var init := members[..|members| - 1];
      AsDictDistinctKeys(init);
      assert MemberKeys(members) == MemberKeys(init) + [members[|members| - 1].0];
    }
  }

  /** With distinct member names the dict holds exactly the object as written. */
  lemma AsDictOfDistinct(members: seq<(string, Json)>)
    requires forall i, j :: 0 <= i < j < |members| ==> members[i].0 != members[j].0
    ensures AsDict(members).keys == MemberKeys(members)
    ensures forall i :: 0 <= i < |members| ==> AsDict(members).values[members[i].0] == members[i].1
  {
    AsDictDistinctKeys(members);
    forall i | 0 <= i < |members|
      ensures AsDict(members).values[members[i].0] == members[i].1
    {
      AsDictLastWins(members, i);
    }
  }
}
