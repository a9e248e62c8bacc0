/** From ranges to ports: the table that banner_grab marks, and the sorted array of getpts. */
module PortArray {
  import opened Common
  import opened PortList
  import opened PortAgreement

  ghost predicate InBounds(ranges: seq<Range>) {
    forall k :: 0 <= k < |ranges| ==> 1 <= ranges[k].lo && ranges[k].hi <= 65535
  }

  /** The ports from `lo` to `hi`. */
  function Expand(lo: int, hi: int): (s: seq<int>)
    ensures |s| == if lo <= hi then hi - lo + 1 else 0
    ensures forall p :: p in s <==> lo <= p <= hi
    decreases hi - lo
  {
    if lo > hi then [] else Expand(lo, hi - 1) + [hi]
  }

  function ExpandAll(ranges: seq<Range>): seq<int> {
    if ranges == [] then []
    else ExpandAll(ranges[..|ranges| - 1]) + Expand(ranges[|ranges| - 1].lo, ranges[|ranges| - 1].hi)
  }

  ghost predicate Covered(ranges: seq<Range>, p: int) {
    exists k :: 0 <= k < |ranges| && ranges[k].lo <= p <= ranges[k].hi
  }

  /** The ports are the union of the ranges. */
  lemma {:induction false} ExpandAllIsUnion(ranges: seq<Range>, p: int)
    ensures p in ExpandAll(ranges) <==> Covered(ranges, p)
  {
    if ranges != [] {
      var n := |ranges| - 1;
      ExpandAllIsUnion(ranges[..n], p);
      if Covered(ranges[..n], p) {
        var k :| 0 <= k < n && ranges[..n][k].lo <= p <= ranges[..n][k].hi;
        assert ranges[k].lo <= p <= ranges[k].hi;
      }
      if Covered(ranges, p) {
        var k :| 0 <= k < |ranges| && ranges[k].lo <= p <= ranges[k].hi;
        assert k == n || ranges[..n][k] == ranges[k];
      }
    }
  }

  // ----- the table of the scanner -----

  /** Within the table, or empty. */
  predicate Fits(r: Range) {
    r.lo > r.hi || (0 <= r.lo && r.hi <= 65535)
  }

  /** Mark the ports of one range; the count goes up for each, marked before or not. */
  method MarkRange(states: array<bool>, r: Range, count: nat) returns (count': nat)
    requires states.Length == 65536 && Fits(r)
    modifies states
    ensures forall p :: 0 <= p < 65536 ==> (states[p] <==> old(states[p]) || r.lo <= p <= r.hi)
    ensures count' == count + |Expand(r.lo, r.hi)|
  {
    count' := count;
    var i := r.lo;
    while i <= r.hi
      invariant r.lo <= i && (i == r.lo || i <= r.hi + 1) && count' == count + (i - r.lo)
      invariant forall p :: 0 <= p < 65536 ==> (states[p] <==> old(states[p]) || r.lo <= p < i)
    {
      states[i], count' := true, count' + 1;
      i := i + 1;
    }
  }

  /** All ranges of a parsed list. */
  method MarkAll(ranges: seq<Range>) returns (states: array<bool>, count: nat)
    requires forall k :: 0 <= k < |ranges| ==> Fits(ranges[k])
    ensures states.Length == 65536 && fresh(states)
    ensures forall p :: 0 <= p < 65536 ==> (states[p] <==> Covered(ranges, p))
    ensures count == |ExpandAll(ranges)|
  {
    states, count := new bool[65536](_ => false), 0;
    for k := 0 to |ranges|
      invariant fresh(states) && states.Length == 65536
      invariant forall p :: 0 <= p < 65536 ==> (states[p] <==> Covered(ranges[..k], p))
      invariant count == |ExpandAll(ranges[..k])|
    {
      ghost var done, more := ranges[..k], ranges[..k + 1];
      assert more[..k] == done;
      count := MarkRange(states, ranges[k], count);
      forall p ensures Covered(more, p) <==> Covered(done, p) || ranges[k].lo <= p <= ranges[k].hi {
        CoveredMore(done, more, p);
      }
    }
    assert ranges[..|ranges|] == ranges;
  }

  lemma {:induction false} CoveredMore(done: seq<Range>, more: seq<Range>, p: int)
    requires |more| == |done| + 1 && more[..|done|] == done
    ensures Covered(more, p) <==> Covered(done, p) || more[|done|].lo <= p <= more[|done|].hi
  {
    if Covered(done, p) {
      var k :| 0 <= k < |done| && done[k].lo <= p <= done[k].hi;
      assert more[k] == done[k];
    }
    if Covered(more, p) {
      var k :| 0 <= k < |more| && more[k].lo <= p <= more[k].hi;
      assert k == |done| || more[..|done|][k] == more[k];
    }
  }

  // ----- the array of getpts -----

  /** Append the ports of one range. */
  method Append(ports: array<int>, i: nat, r: Range) returns (i': nat)
    requires i + |Expand(r.lo, r.hi)| <= ports.Length
    modifies ports
    ensures i' == i + |Expand(r.lo, r.hi)| && ports[..i'] == old(ports[..i]) + Expand(r.lo, r.hi)
  {
    i' := i;
    var j := r.lo;
    while j <= r.hi
      invariant r.lo <= j && (j == r.lo || j <= r.hi + 1) && i' == i + (j - r.lo) <= ports.Length
      invariant ports[..i'] == old(ports[..i]) + Expand(r.lo, j - 1)
    {
      ports[i'] := j;
      i', j := i' + 1, j + 1;
      assert ports[..i'] == ports[..i' - 1] + [j - 1];
    }
    assert j == r.hi + 1 || Expand(r.lo, r.hi) == [];
  }

  method Collect(ranges: seq<Range>) returns (ports: array<int>, i: nat)
    requires InBounds(ranges) && |ExpandAll(ranges)| <= 65535
    ensures ports.Length == 65536 && fresh(ports) && i <= 65536 && ports[..i] == ExpandAll(ranges) + [0]
  {
    ports, i := new int[65536](_ => 0), 0;
    for k := 0 to |ranges|
      invariant fresh(ports) && ports.Length == 65536 && i <= 65535 && ports[..i] == ExpandAll(ranges[..k])
    {
      assert ranges[..k + 1][..k] == ranges[..k];
      FewerPorts(ranges, k + 1);
      i := Append(ports, i, ranges[k]);
    }
    assert ranges[..|ranges|] == ranges;
    ports[i] := 0;
    i := i + 1;
  }

  lemma {:induction false} FewerPorts(ranges: seq<Range>, k: nat)
    requires k <= |ranges|
    ensures |ExpandAll(ranges[..k])| <= |ExpandAll(ranges)|
    decreases |ranges|
  {
    if k < |ranges| {
      FewerPorts(ranges[..|ranges| - 1], k);
      assert ranges[..|ranges| - 1][..k] == ranges[..k];
    } else {
      assert ranges[..k] == ranges;
    }
  }

  // ----- sorting -----

  /** qsort_compar: 0 counts as the largest. */
  function Compare(a: int, b: int): int {
    if a == 0 then 1 else if b == 0 then -1 else a - b
  }

  ghost predicate Ordered(s: seq<int>) {
    forall i, j :: 0 <= i < j < |s| ==> Compare(s[i], s[j]) <= 0
  }

  function Insert(x: int, t: seq<int>): (r: seq<int>)
    ensures multiset(r) == multiset(t) + multiset{x}
  {
    if t == [] then [x]
    else if Compare(x, t[0]) <= 0 then [x] + t
    else
      assert t == [t[0]] + t[1..];
      [t[0]] + Insert(x, t[1..])
  }

  lemma {:induction false} InsertOrdered(x: int, t: seq<int>)
    requires Ordered(t) && (x == 0 ==> 0 !in t)
    ensures Ordered(Insert(x, t))
  {
    if t != [] && Compare(x, t[0]) > 0 {
      InsertOrdered(x, t[1..]);
      var r := Insert(x, t[1..]);
      forall k | 0 <= k < |r| ensures Compare(t[0], r[k]) <= 0 {
        assert r[k] in multiset(r);
        assert r[k] == x || r[k] in t[1..];
      }
    }
  }

  /** Any sort does what qsort promises, for a comparison that is consistent: at most one 0. */
  method Sort(a: seq<int>) returns (t: seq<int>)
    requires forall i, j :: 0 <= i < j < |a| ==> a[i] != 0 || a[j] != 0
    ensures multiset(t) == multiset(a) && Ordered(t)
  {
    t := [];
    for k := 0 to |a|
      invariant multiset(t) == multiset(a[..k]) && Ordered(t)
    {
      assert a[k] == 0 ==> 0 !in a[..k];
      assert 0 in t <==> 0 in multiset(t);
      InsertOrdered(a[k], t);
      t := Insert(a[k], t);
      assert a[..k + 1] == a[..k] + [a[k]];
    }
    assert a[..|a|] == a;
  }

  /** Ordered with one 0 means ascending, and the 0 last. */
  lemma {:induction false} OrderedEndsInZero(t: seq<int>, ports: seq<int>)
    requires Ordered(t) && multiset(t) == multiset(ports + [0]) && forall k :: 0 <= k < |ports| ==> ports[k] > 0
    ensures |t| == |ports| + 1 && t[|ports|] == 0 && 0 !in t[..|ports|]
    ensures forall i, j :: 0 <= i < j < |ports| ==> t[i] <= t[j]
  {
    assert |multiset(t)| == |t| && |multiset(ports + [0])| == |ports| + 1;
    assert 0 in multiset(t);
    var z :| 0 <= z < |t| && t[z] == 0;
    forall i | 0 <= i < |ports| ensures t[i] != 0 { assert Compare(t[i], t[|ports|]) <= 0; }
  }

  // ----- both at once -----

  lemma {:induction false} AllPositive(ranges: seq<Range>)
    requires InBounds(ranges)
    ensures forall k :: 0 <= k < |ExpandAll(ranges)| ==> ExpandAll(ranges)[k] > 0
  {
    var ports := ExpandAll(ranges);
    forall k | 0 <= k < |ports| ensures ports[k] > 0 {
      ExpandAllIsUnion(ranges, ports[k]);
    }
  }

  /** The ports of the ranges, ascending, repeated as often as they were listed, and then a 0. */
  ghost predicate IsPortArray(t: seq<int>, ranges: seq<Range>) {
    var n := |ExpandAll(ranges)|;
    && |t| == n + 1 && t[n] == 0 && (forall i, j :: 0 <= i < j < n ==> t[i] <= t[j])
    && multiset(t[..n]) == multiset(ExpandAll(ranges))
  }

  lemma {:induction false} SortedIsPortArray(t: seq<int>, ranges: seq<Range>)
    requires InBounds(ranges) && Ordered(t) && multiset(t) == multiset(ExpandAll(ranges) + [0])
    ensures IsPortArray(t, ranges)
  {
    var ports := ExpandAll(ranges);
    AllPositive(ranges);
    OrderedEndsInZero(t, ports);
    assert t == t[..|ports|] + [0];
    SameWithoutZero(t[..|ports|], ports);
  }

  lemma {:induction false} SameWithoutZero(u: seq<int>, ports: seq<int>)
    requires multiset(u + [0]) == multiset(ports + [0])
    ensures multiset(u) == multiset(ports)
  {
    assert multiset(u) == multiset(u + [0]) - multiset{0};
    assert multiset(ports) == multiset(ports + [0]) - multiset{0};
  }

  lemma {:induction false} PortArrayMembers(t: seq<int>, ranges: seq<Range>, p: int)
    requires IsPortArray(t, ranges) && p > 0
    ensures p in t <==> Covered(ranges, p)
  {
    var n := |ExpandAll(ranges)|;
    ExpandAllIsUnion(ranges, p);
    assert t == t[..n] + [0];
    assert p in t[..n] <==> p in multiset(t[..n]);
    assert p in ExpandAll(ranges) <==> p in multiset(ExpandAll(ranges));
  }

  method SortedPorts(ranges: seq<Range>) returns (t: seq<int>)
    requires InBounds(ranges) && |ExpandAll(ranges)| <= 65535
    ensures IsPortArray(t, ranges)
  {
    AllPositive(ranges);
    var a, i := Collect(ranges);
    t := Sort(a[..i]);
    SortedIsPortArray(t, ranges);
  }

  /** getpts, but for its memory of the last call. */
  method GetPts(text: string) returns (r: Option<seq<int>>)
    requires GetRanges(text).Some? ==>
               InBounds(GetRanges(text).value) && |ExpandAll(GetRanges(text).value)| <= 65535
    ensures r.Some? <==> GetRanges(text).Some?
    ensures r.Some? ==> IsPortArray(r.value, GetRanges(text).value)
  {
    var ranges := ParseElements(ElementOf, BeforeU(AfterT(Strip(text))));
    if ranges.None? { return None; }
    var t := SortedPorts(ranges.value);
    r := Some(t);
  }

  lemma {:induction false} ProperBounds(items: seq<Item>)
    requires forall k :: 0 <= k < |items| ==> Proper(items[k])
    ensures InBounds(AllBounds(items))
  {
    if items != [] { ProperBounds(items[1..]); }
  }

  /**
   A list with no open range before its end: the scanner marks what its parser reads, getpts sorts what
   its own reads, and these are the same ports, the union of the items.
   */
  method SamePorts(text: string, ghost tagged: bool, ghost items: seq<Item>, ghost udp: seq<Item>)
    returns (states: array<bool>, pts: seq<int>)
    requires AllProper(items) && OpenLast(items, udp == []) && text == Text(tagged, items, udp)
    requires |ExpandAll(AllBounds(items))| <= 65535
    ensures TcpParse(text).Ok? && GetRanges(text).Some?
    ensures states.Length == 65536
    ensures forall p :: 0 <= p < 65536 ==> (states[p] <==> Covered(TcpParse(text).ranges, p))
    ensures IsPortArray(pts, GetRanges(text).value)
    ensures forall p :: 1 <= p < 65536 ==> (states[p] <==> p in pts)
    ensures forall p :: 1 <= p < 65536 ==> (states[p] <==> Covered(AllBounds(items), p))
  {
    ParsersAgree(tagged, items, udp);
    ProperBounds(items);
    var parsed := ParsePorts(text);
    var count;
    states, count := MarkAll(parsed.ranges);
    var got := GetPts(text);
    pts := got.value;
    SameMembers(pts, parsed.ranges);
  }

  lemma {:induction false} SameMembers(t: seq<int>, ranges: seq<Range>)
    requires IsPortArray(t, ranges)
    ensures forall p :: 1 <= p < 65536 ==> (p in t <==> Covered(ranges, p))
  {
    forall p | 1 <= p < 65536 ensures p in t <==> Covered(ranges, p) {
      PortArrayMembers(t, ranges, p);
    }
  }
}
