/** The search frontier: a list of (priority, node) entries from which the
    least entry, comparing priority first and node id second, is removed. */
module Frontier {
  import opened Graphs

  datatype Entry = Entry(priority: nat, node: Node)

  /** Tuple order: priority first, ties broken by the node id. */
  predicate Less(a: Entry, b: Entry) {
    a.priority < b.priority || (a.priority == b.priority && a.node < b.node)
  }

  /** The position of a least entry of a non-empty frontier (its first occurrence). */
  function MinIndex(s: seq<Entry>): (k: nat)
    requires |s| > 0
    ensures k < |s|
    ensures forall j | 0 <= j < |s| :: !Less(s[j], s[k])
    ensures forall j | 0 <= j < k :: s[j] != s[k]
  {
    if |s| == 1 then 0
    else
      var k := MinIndex(s[1..]) + 1;
      assert forall j | 1 <= j < |s| :: s[j] == s[1..][j - 1];
      if Less(s[k], s[0]) then k else 0
  }

  /** Remove a least entry: it comes back together with the remaining frontier,
      which holds every other entry. */
  function PopMin(s: seq<Entry>): (r: (Entry, seq<Entry>))
    requires |s| > 0
    ensures multiset(r.1) + multiset{r.0} == multiset(s)
    ensures |r.1| == |s| - 1
    ensures forall e | e in s :: !Less(e, r.0)
  {
    var k := MinIndex(s);
    assert s == s[..k] + [s[k]] + s[k + 1..];
    (s[k], s[..k] + s[k + 1..])
  }

  /** The entry `PopMin` removes is one of the frontier's and no remaining entry is less. */
  lemma PopMinLeast(s: seq<Entry>)
    requires |s| > 0
    ensures PopMin(s).0 in s
    ensures forall e | e in PopMin(s).1 :: e in s && !Less(e, PopMin(s).0)
  {
    var r := PopMin(s);
    assert r.0 in multiset(s);
    forall e | e in r.1 ensures e in s {
      assert e in multiset(r.1);
    }
  }
}
