/** Counting buffers and the blocks they hold. */
module Counting {

  function Count(flags: seq<bool>): (n: nat)
    ensures n <= |flags|
  {
    if flags == [] then 0 else Count(flags[..|flags| - 1]) + (if flags[|flags| - 1] then 1 else 0)
  }

  lemma {:induction false} CountAll(flags: seq<bool>)
    ensures Count(flags) == |flags| <==> forall b :: 0 <= b < |flags| ==> flags[b]
  {
    if flags != [] {
      var rest := flags[..|flags| - 1];
      CountAll(rest);
      if Count(flags) == |flags| {
        assert forall b :: 0 <= b < |flags| - 1 ==> rest[b] == flags[b];
      }
    }
  }

  /** Flagged places with different keys number as many as their keys. */
  lemma {:induction false} CountKeys(flags: seq<bool>, keys: seq<int>)
    requires |flags| == |keys|
    requires forall a, b :: 0 <= a < b < |flags| && flags[a] && flags[b] ==> keys[a] != keys[b]
    ensures Count(flags) == |KeySet(flags, keys)|
  {
    if flags != [] {
      var n := |flags| - 1;
      var rest := KeySet(flags[..n], keys[..n]);
      CountKeys(flags[..n], keys[..n]);
      KeySetGrows(flags, keys);
      if flags[n] {
        assert keys[n] !in rest;
      }
    }
  }

  function KeySet(flags: seq<bool>, keys: seq<int>): set<int>
    requires |flags| == |keys|
  {
    set b | 0 <= b < |flags| && flags[b] :: keys[b]
  }

  lemma KeySetGrows(flags: seq<bool>, keys: seq<int>)
    requires |flags| == |keys| > 0
    ensures var n := |flags| - 1;
            KeySet(flags, keys) == KeySet(flags[..n], keys[..n]) + if flags[n] then {keys[n]} else {}
  {
    var n := |flags| - 1;
    var rest := KeySet(flags[..n], keys[..n]);
    forall k | k in KeySet(flags, keys) ensures k in rest + if flags[n] then {keys[n]} else {} {
      var b :| 0 <= b < |flags| && flags[b] && keys[b] == k;
      assert b < n ==> flags[..n][b] && keys[..n][b] == k;
    }
    forall k | k in rest ensures k in KeySet(flags, keys) {
      var b :| 0 <= b < n && flags[..n][b] && keys[..n][b] == k;
      assert flags[b] && keys[b] == k;
    }
  }

  ghost predicate Different(s: seq<nat>) {
    forall i, j :: 0 <= i < j < |s| ==> s[i] != s[j]
  }

  function Blocks(s: seq<nat>): set<int> {
    set b | b in s
  }

  lemma {:induction false} BlocksNumber(s: seq<nat>)
    requires Different(s)
    ensures |Blocks(s)| == |s|
  {
    if s != [] {
      BlocksNumber(s[1..]);
      BlocksFirst(s);
    }
  }

  lemma BlocksFirst(s: seq<nat>)
    requires Different(s) && s != []
    ensures Blocks(s) == {s[0]} + Blocks(s[1..]) && s[0] !in Blocks(s[1..]) && Different(s[1..])
  {
    assert s == [s[0]] + s[1..];
  }
}
