/** The transcript interval aggregator of the timestamps endpoint: caption
    segments are bucketed into 30-second windows keyed by
    `floor(start_ms / 1000 / 30)`, the populated windows are listed in
    ascending window order, and each window's snippets are joined with a space
    and whitespace-normalised.

    The code as written (`Group`, `ValuesFrom`, `Finish`, `Aggregate`) follows
    the TypeScript reducer: a `reduce` into a sparse array, `Object.values`,
    and a final `map`. `Reference` states the same result declaratively, one
    window at a time, and `Aggregate` is proved equal to it. */
module Intervals {
  import opened Wrappers
  import Text

  // Every window is 30 seconds (30000 milliseconds) wide.

  /** One caption segment as the provider mapping yields it: `start_ms`
      already parsed to a natural number of milliseconds, `end_ms`, and the
      snippet text, absent when the provider has none. */
  datatype Segment = Segment(startMs: nat, endMs: int, snippet: Option<string>)

  /** One entry of the endpoint's output, in whole seconds. */
  datatype Interval = Interval(startTime: int, endTime: int, text: string)

  /** The window a segment falls in; for whole milliseconds
      `floor(ms / 1000 / 30)` is `ms div 30000`. */
  function BucketOf(s: Segment): (k: nat)
    ensures 30000 * k <= s.startMs < 30000 * (k + 1)
  {
    s.startMs / 30000
  }

  /** What a segment contributes to its window's text: the snippet trimmed
      when the provider mapping reads it, and `""` for an absent snippet,
      which is how `Array.prototype.join` renders `undefined`. */
  function SnippetText(s: Segment): string {
    match s.snippet
    case Some(t) => Text.Trim(t)
    case None => []
  }

  // ---------------------------------------------------------------------------
  // The code as written

  /** One element of the accumulator array: window bounds and pushed texts. */
  datatype Slot = Slot(startTime: nat, endTime: nat, text: seq<string>)

  /** The sparse accumulator array: its populated indices and its `length`. */
  datatype Sparse = Sparse(slots: map<nat, Slot>, length: nat)

  /** The `reduce` callback: create the window's slot on first use, then push
      the snippet; assigning index `k` grows the array's length to `k + 1`. */
  function Push(acc: Sparse, s: Segment): Sparse {
    var k := BucketOf(s);
    var slot := if k in acc.slots then acc.slots[k]
                else Slot(30 * k, 30 * (k + 1), []);
    Sparse(acc.slots[k := slot.(text := slot.text + [SnippetText(s)])],
           if k < acc.length then acc.length else k + 1)
  }

  /** `segments.reduce(Push, [])`. */
  function Group(segs: seq<Segment>): Sparse {
    if segs == [] then Sparse(map[], 0)
    else Push(Group(segs[..|segs| - 1]), segs[|segs| - 1])
  }

  /** `Object.values` on an array: the populated indices from `i` upwards,
      in ascending order. */
  function ValuesFrom(acc: Sparse, i: nat): seq<Slot>
    decreases acc.length - i
  {
    if i >= acc.length then []
    else (if i in acc.slots then [acc.slots[i]] else []) + ValuesFrom(acc, i + 1)
  }

  /** The final `map`: join the texts with a space and collapse whitespace. */
  function ToInterval(slot: Slot): Interval {
    Interval(slot.startTime, slot.endTime, Text.Collapse(Text.Join(slot.text, " ")))
  }

  function Finish(slots: seq<Slot>): seq<Interval> {
    if slots == [] then [] else [ToInterval(slots[0])] + Finish(slots[1..])
  }

  /** The aggregator of the timestamps endpoint. */
  function Aggregate(segs: seq<Segment>): (r: seq<Interval>)
    ensures r == Reference(segs)
    ensures WellFormed(r)
    ensures NormalizedTexts(r)
    ensures |r| <= |segs|
    ensures r == [] <==> segs == []
  {
    AggregateIsReference(segs);
    ReferenceFromShape(segs, 0, Bound(segs));
    ReferenceFromContent(segs, 0, Bound(segs));
    ReferenceCount(segs);
    ReferenceEmpty(segs);
    Finish(ValuesFrom(Group(segs), 0))
  }

  // ---------------------------------------------------------------------------
  // The declarative reference

  /** Texts of the segments in window `k`, in arrival order. */
  function SnippetsIn(segs: seq<Segment>, k: nat): seq<string> {
    if segs == [] then []
    else (if BucketOf(segs[0]) == k then [SnippetText(segs[0])] else [])
         + SnippetsIn(segs[1..], k)
  }

  /** The populated windows. */
  function Buckets(segs: seq<Segment>): set<nat> {
    set i | 0 <= i < |segs| :: BucketOf(segs[i])
  }

  /** One past the highest populated window, or 0 for no segments. */
  function Bound(segs: seq<Segment>): (b: nat)
    ensures forall i :: 0 <= i < |segs| ==> BucketOf(segs[i]) < b
    ensures b == 0 <==> segs == []
    ensures b > 0 ==> b - 1 in Buckets(segs)
  {
    if segs == [] then 0
    else
      var rest := Bound(segs[1..]);
      assert forall i :: 1 <= i < |segs| ==> segs[i] == segs[1..][i - 1];
      assert rest > 0 ==> rest - 1 in Buckets(segs) by {
        if rest > 0 {
          var i :| 0 <= i < |segs[1..]| && BucketOf(segs[1..][i]) == rest - 1;
          assert segs[i + 1] == segs[1..][i];
        }
      }
      if BucketOf(segs[0]) < rest then rest else BucketOf(segs[0]) + 1
  }

  /** The interval the endpoint reports for window `k`. */
  function IntervalOf(segs: seq<Segment>, k: nat): Interval {
    Interval(30 * k, 30 * k + 30,
             Text.Collapse(Text.Join(SnippetsIn(segs, k), " ")))
  }

  /** A 30-second window starting at a multiple of 30 seconds. */
  predicate Aligned(iv: Interval) {
    && iv.startTime >= 0
    && iv.startTime % 30 == 0
    && iv.endTime == iv.startTime + 30
  }

  predicate Ascending(r: seq<Interval>) {
    forall a, b :: 0 <= a < b < |r| ==> r[a].startTime < r[b].startTime
  }

  /** The shape of every aggregator output: aligned windows in strictly
      ascending order. */
  predicate WellFormed(r: seq<Interval>) {
    && (forall j :: 0 <= j < |r| ==> Aligned(r[j]))
    && Ascending(r)
  }

  /** Every interval's text has whitespace only as single plain spaces. */
  predicate NormalizedTexts(r: seq<Interval>) {
    forall j :: 0 <= j < |r| ==> Text.Normalized(r[j].text)
  }

  /** The windows `i .. n-1` that hold at least one segment, in order. */
  function ReferenceFrom(segs: seq<Segment>, i: nat, n: nat): seq<Interval>
    decreases n - i
  {
    if i >= n then []
    else
      var rest := ReferenceFrom(segs, i + 1, n);
      var here := if SnippetsIn(segs, i) != [] then [IntervalOf(segs, i)] else [];
      here + rest
  }

  /** One step of the reference: window `i`, if populated, then the rest. */
  lemma ReferenceFromStep(segs: seq<Segment>, i: nat, n: nat)
    requires i < n
    ensures ReferenceFrom(segs, i, n)
         == (if SnippetsIn(segs, i) != [] then [IntervalOf(segs, i)] else []) + ReferenceFrom(segs, i + 1, n)
  {
  }

  /** Window `k` starts at `30 k` seconds, which names `k` back. */
  lemma WindowStart(k: nat)
    ensures (30 * k) % 30 == 0 && (30 * k) / 30 == k
  {
  }

  /** Every start time of `r` lies in `[lo, hi)`. */
  predicate StartsWithin(r: seq<Interval>, lo: int, hi: int) {
    forall j :: 0 <= j < |r| ==> lo <= r[j].startTime < hi
  }

  /** An aligned window at `lo` in front of a well-formed list of later
      windows keeps it well formed. */
  lemma ShapeCons(x: Interval, rest: seq<Interval>, lo: int, hi: int)
    requires Aligned(x) && x.startTime == lo
    requires WellFormed(rest) && StartsWithin(rest, lo + 30, hi) && lo < hi
    ensures WellFormed([x] + rest) && StartsWithin([x] + rest, lo, hi)
  {
  }

  /** The interval of window `k` is the aligned window at `30 k`. */
  lemma IntervalOfAligned(segs: seq<Segment>, k: nat)
    ensures Aligned(IntervalOf(segs, k)) && IntervalOf(segs, k).startTime == 30 * k
  {
    WindowStart(k);
  }

  /** The windows `i .. n-1` are listed aligned, ascending, and inside
      `[30 i, 30 n)` seconds. */
  lemma {:induction false} ReferenceFromShape(segs: seq<Segment>, i: nat, n: nat)
    ensures WellFormed(ReferenceFrom(segs, i, n))
    ensures StartsWithin(ReferenceFrom(segs, i, n), 30 * i, 30 * n)
    decreases n - i
  {
    if i < n {
      var rest := ReferenceFrom(segs, i + 1, n);
      ReferenceFromShape(segs, i + 1, n);
      ReferenceFromStep(segs, i, n);
      if SnippetsIn(segs, i) != [] {
        IntervalOfAligned(segs, i);
        ShapeCons(IntervalOf(segs, i), rest, 30 * i, 30 * n);
      } else {
        assert ReferenceFrom(segs, i, n) == rest;
      }
    }
  }

  /** `iv` is the interval of a populated window, the one its start time
      names. */
  predicate WindowOf(segs: seq<Segment>, iv: Interval) {
    && iv.startTime >= 0
    && iv.startTime % 30 == 0
    && SnippetsIn(segs, iv.startTime / 30) != []
    && iv == IntervalOf(segs, iv.startTime / 30)
  }

  lemma PopulatedIsWindow(segs: seq<Segment>, k: nat)
    requires SnippetsIn(segs, k) != []
    ensures WindowOf(segs, IntervalOf(segs, k))
  {
    WindowStart(k);
  }

  /** Each listed interval is the populated window its start time names. */
  lemma {:induction false} ReferenceFromContent(segs: seq<Segment>, i: nat, n: nat)
    ensures forall j :: 0 <= j < |ReferenceFrom(segs, i, n)| ==> WindowOf(segs, ReferenceFrom(segs, i, n)[j])
    decreases n - i
  {
    if i < n {
      ReferenceFromContent(segs, i + 1, n);
      var rest := ReferenceFrom(segs, i + 1, n);
      var here := if SnippetsIn(segs, i) != [] then [IntervalOf(segs, i)] else [];
      assert ReferenceFrom(segs, i, n) == here + rest;
      if SnippetsIn(segs, i) != [] {
        PopulatedIsWindow(segs, i);
      }
      assert forall j :: 0 <= j < |here| ==> WindowOf(segs, here[j]);
    }
  }

  /** The aggregator's result, stated window by window. */
  function Reference(segs: seq<Segment>): seq<Interval> {
    ReferenceFrom(segs, 0, Bound(segs))
  }

  // ---------------------------------------------------------------------------
  // Facts about the reference

  /** The populated windows of a non-empty input: the first segment's and
      those of the rest. */
  lemma BucketsCons(segs: seq<Segment>)
    requires segs != []
    ensures Buckets(segs) == {BucketOf(segs[0])} + Buckets(segs[1..])
  {
    forall x | x in Buckets(segs) ensures x in {BucketOf(segs[0])} + Buckets(segs[1..]) {
      var i :| 0 <= i < |segs| && BucketOf(segs[i]) == x;
      if i > 0 {
        assert segs[1..][i - 1] == segs[i];
      }
    }
    forall x | x in Buckets(segs[1..]) ensures x in Buckets(segs) {
      var i :| 0 <= i < |segs[1..]| && BucketOf(segs[1..][i]) == x;
      assert segs[i + 1] == segs[1..][i];
    }
  }

  /** A window has snippets exactly when some segment falls in it. */
  lemma {:induction false} SnippetsInNonEmpty(segs: seq<Segment>, k: nat)
    ensures SnippetsIn(segs, k) != [] <==> k in Buckets(segs)
    decreases |segs|
  {
    if segs != [] {
      SnippetsInNonEmpty(segs[1..], k);
      BucketsCons(segs);
    }
  }

  /** Splitting the input splits every window's snippet list the same way:
      snippets keep their arrival order. */
  lemma {:induction false} SnippetsInAppend(a: seq<Segment>, b: seq<Segment>, k: nat)
    ensures SnippetsIn(a + b, k) == SnippetsIn(a, k) + SnippetsIn(b, k)
    decreases |a|
  {
    if a == [] {
      assert a + b == b;
    } else {
      assert (a + b)[1..] == a[1..] + b;
      SnippetsInAppend(a[1..], b, k);
    }
  }

  /** Populated windows inside `i .. n-1`. */
  function BucketsBetween(segs: seq<Segment>, i: nat, n: nat): set<nat> {
    set k | k in Buckets(segs) && i <= k < n
  }

  /** The reference lists each populated window of `i .. n-1` exactly once. */
  lemma {:induction false} ReferenceFromCount(segs: seq<Segment>, i: nat, n: nat)
    ensures |ReferenceFrom(segs, i, n)| == |BucketsBetween(segs, i, n)|
    decreases n - i
  {
    if i >= n {
      assert BucketsBetween(segs, i, n) == {};
    } else {
      ReferenceFromCount(segs, i + 1, n);
      SnippetsInNonEmpty(segs, i);
      if i in Buckets(segs) {
        assert BucketsBetween(segs, i, n) == BucketsBetween(segs, i + 1, n) + {i};
      } else {
        assert BucketsBetween(segs, i, n) == BucketsBetween(segs, i + 1, n);
      }
    }
  }

  lemma {:induction false} BucketsSize(segs: seq<Segment>)
    ensures |Buckets(segs)| <= |segs|
    decreases |segs|
  {
    if segs != [] {
      BucketsSize(segs[1..]);
      BucketsCons(segs);
    }
  }

  /** One interval per populated window, so never more intervals than
      segments. */
  lemma ReferenceCount(segs: seq<Segment>)
    ensures |Reference(segs)| == |Buckets(segs)| <= |segs|
  {
    ReferenceFromCount(segs, 0, Bound(segs));
    assert BucketsBetween(segs, 0, Bound(segs)) == Buckets(segs);
    BucketsSize(segs);
  }

  /** Some interval of `r` starts at window `k`. */
  predicate HasWindow(r: seq<Interval>, k: nat) {
    exists j :: 0 <= j < |r| && r[j].startTime == 30 * k
  }

  lemma HasWindowHead(x: Interval, rest: seq<Interval>, k: nat)
    requires x.startTime == 30 * k
    ensures HasWindow([x] + rest, k)
  {
    assert ([x] + rest)[0] == x;
  }

  lemma HasWindowTail(here: seq<Interval>, rest: seq<Interval>, k: nat)
    requires HasWindow(rest, k)
    ensures HasWindow(here + rest, k)
  {
    var j :| 0 <= j < |rest| && rest[j].startTime == 30 * k;
    assert (here + rest)[|here| + j] == rest[j];
  }

  /** Every populated window of `i .. n-1` has its interval in the reference. */
  lemma {:induction false} ReferenceFromComplete(segs: seq<Segment>, i: nat, n: nat, k: nat)
    requires i <= k < n
    requires SnippetsIn(segs, k) != []
    ensures HasWindow(ReferenceFrom(segs, i, n), k)
    decreases n - i
  {
    var rest := ReferenceFrom(segs, i + 1, n);
    var here := if SnippetsIn(segs, i) != [] then [IntervalOf(segs, i)] else [];
    ReferenceFromStep(segs, i, n);
    if k == i {
      IntervalOfAligned(segs, k);
      HasWindowHead(IntervalOf(segs, k), rest, k);
    } else {
      ReferenceFromComplete(segs, i + 1, n, k);
      HasWindowTail(here, rest, k);
    }
  }

  lemma ReferenceComplete(segs: seq<Segment>, k: nat)
    requires k in Buckets(segs)
    ensures exists j :: 0 <= j < |Reference(segs)| && Reference(segs)[j].startTime == 30 * k
  {
    SnippetsInNonEmpty(segs, k);
    var r := Reference(segs);
    ReferenceFromComplete(segs, 0, Bound(segs), k);
    var j :| 0 <= j < |r| && r[j].startTime == 30 * k;
  }

  /** No segments, no intervals; some segments, some intervals. */
  lemma ReferenceEmpty(segs: seq<Segment>)
    ensures Reference(segs) == [] <==> segs == []
  {
    if segs != [] {
      assert BucketOf(segs[0]) in Buckets(segs);
      ReferenceComplete(segs, BucketOf(segs[0]));
    }
  }

  // ---------------------------------------------------------------------------
  // The code as written computes the reference

  /** The accumulator the `reduce` should end with: one slot per populated
      window, holding the window's bounds and its snippets in arrival order. */
  function SlotsOf(segs: seq<Segment>): map<nat, Slot> {
    map k | k in Buckets(segs) :: Slot(30 * k, 30 * (k + 1), SnippetsIn(segs, k))
  }

  lemma BucketsSnoc(p: seq<Segment>, s: Segment)
    ensures Buckets(p + [s]) == Buckets(p) + {BucketOf(s)}
  {
    var segs := p + [s];
    forall x | x in Buckets(segs) ensures x in Buckets(p) + {BucketOf(s)} {
      var i :| 0 <= i < |segs| && BucketOf(segs[i]) == x;
      if i < |p| {
        assert p[i] == segs[i];
      }
    }
    forall x | x in Buckets(p) ensures x in Buckets(segs) {
      var i :| 0 <= i < |p| && BucketOf(p[i]) == x;
      assert segs[i] == p[i];
    }
    assert segs[|p|] == s;
  }

  lemma BoundSnoc(p: seq<Segment>, s: Segment)
    ensures Bound(p + [s]) == if BucketOf(s) < Bound(p) then Bound(p) else BucketOf(s) + 1
  {
    var segs := p + [s];
    var b := if BucketOf(s) < Bound(p) then Bound(p) else BucketOf(s) + 1;
    BucketsSnoc(p, s);
    forall i | 0 <= i < |segs| ensures BucketOf(segs[i]) < b {
      if i < |p| {
        assert p[i] == segs[i];
      }
    }
    assert b - 1 in Buckets(segs);
  }

  lemma SnippetsInSnoc(p: seq<Segment>, s: Segment, k: nat)
    ensures SnippetsIn(p + [s], k) == SnippetsIn(p, k) + (if BucketOf(s) == k then [SnippetText(s)] else [])
  {
    SnippetsInAppend(p, [s], k);
    assert [s][1..] == [];
  }

  /** One `reduce` step on the expected accumulator gives the expected
      accumulator of the longer input. */
  lemma PushStep(p: seq<Segment>, s: Segment)
    ensures Push(Sparse(SlotsOf(p), Bound(p)), s) == Sparse(SlotsOf(p + [s]), Bound(p + [s]))
  {
    var after := Push(Sparse(SlotsOf(p), Bound(p)), s).slots;
    PushKeys(p, s);
    forall x | x in after ensures after[x] == SlotsOf(p + [s])[x] {
      PushSlot(p, s, x);
    }
    BoundSnoc(p, s);
  }

  lemma PushKeys(p: seq<Segment>, s: Segment)
    ensures Push(Sparse(SlotsOf(p), Bound(p)), s).slots.Keys == SlotsOf(p + [s]).Keys
  {
    BucketsSnoc(p, s);
  }

  lemma PushSlot(p: seq<Segment>, s: Segment, x: nat)
    requires x in Push(Sparse(SlotsOf(p), Bound(p)), s).slots
    ensures x in SlotsOf(p + [s])
    ensures Push(Sparse(SlotsOf(p), Bound(p)), s).slots[x] == SlotsOf(p + [s])[x]
  {
    BucketsSnoc(p, s);
    SnippetsInSnoc(p, s, x);
    if x == BucketOf(s) {
      SnippetsInNonEmpty(p, x);
    }
  }

  /** The `reduce` ends with the expected accumulator. */
  lemma {:induction false} GroupShape(segs: seq<Segment>)
    ensures Group(segs) == Sparse(SlotsOf(segs), Bound(segs))
    decreases |segs|
  {
    if segs == [] {
      assert SlotsOf(segs) == map[];
    } else {
      var p := segs[..|segs| - 1];
      var s := segs[|segs| - 1];
      assert segs == p + [s];
      GroupShape(p);
      PushStep(p, s);
    }
  }

  lemma FinishCons(x: Slot, xs: seq<Slot>)
    ensures Finish([x] + xs) == [ToInterval(x)] + Finish(xs)
  {
    assert ([x] + xs)[1..] == xs;
  }

  /** One index of the `Object.values` scan, followed by the final `map`,
      contributes exactly the reference's interval for that window. */
  lemma ValuesStep(segs: seq<Segment>, i: nat)
    requires i < Bound(segs)
    ensures Finish(ValuesFrom(Sparse(SlotsOf(segs), Bound(segs)), i))
         == (if SnippetsIn(segs, i) != [] then [IntervalOf(segs, i)] else [])
            + Finish(ValuesFrom(Sparse(SlotsOf(segs), Bound(segs)), i + 1))
  {
    var acc := Sparse(SlotsOf(segs), Bound(segs));
    var rest := ValuesFrom(acc, i + 1);
    SnippetsInNonEmpty(segs, i);
    if i in Buckets(segs) {
      var slot := acc.slots[i];
      assert ValuesFrom(acc, i) == [slot] + rest;
      FinishCons(slot, rest);
      assert ToInterval(slot) == IntervalOf(segs, i);
    } else {
      assert ValuesFrom(acc, i) == rest;
      assert [] + Finish(rest) == Finish(rest);
    }
  }

  /** `Object.values` from index `i`, followed by the final `map`, on the
      expected accumulator, yields the reference from window `i`. */
  predicate ValuesMatch(segs: seq<Segment>, i: nat) {
    Finish(ValuesFrom(Sparse(SlotsOf(segs), Bound(segs)), i)) == ReferenceFrom(segs, i, Bound(segs))
  }

  lemma ValuesMatchStep(segs: seq<Segment>, i: nat)
    requires i < Bound(segs) && ValuesMatch(segs, i + 1)
    ensures ValuesMatch(segs, i)
  {
    var n := Bound(segs);
    var acc := Sparse(SlotsOf(segs), n);
    var here := if SnippetsIn(segs, i) != [] then [IntervalOf(segs, i)] else [];
    ValuesStep(segs, i);
    ReferenceFromStep(segs, i, n);
    calc {
      Finish(ValuesFrom(acc, i));
      here + Finish(ValuesFrom(acc, i + 1));
      here + ReferenceFrom(segs, i + 1, n);
      ReferenceFrom(segs, i, n);
    }
  }

  lemma ValuesMatchEnd(segs: seq<Segment>, i: nat)
    requires i >= Bound(segs)
    ensures ValuesMatch(segs, i)
  {
    assert ValuesFrom(Sparse(SlotsOf(segs), Bound(segs)), i) == [];
    assert ReferenceFrom(segs, i, Bound(segs)) == [];
  }

  lemma {:induction false} ValuesShape(segs: seq<Segment>, i: nat)
    ensures ValuesMatch(segs, i)
    decreases Bound(segs) - i
  {
    if i < Bound(segs) {
      ValuesShape(segs, i + 1);
      ValuesMatchStep(segs, i);
    } else {
      ValuesMatchEnd(segs, i);
    }
  }

  lemma AggregateIsReference(segs: seq<Segment>)
    ensures Finish(ValuesFrom(Group(segs), 0)) == Reference(segs)
  {
    GroupShape(segs);
    ValuesShape(segs, 0);
  }

  // ---------------------------------------------------------------------------
  // Properties of the aggregator

  /** Intervals are pairwise disjoint half-open ranges. */
  lemma Disjoint(segs: seq<Segment>)
    ensures forall a, b :: 0 <= a < b < |Aggregate(segs)| ==>
              Aggregate(segs)[a].endTime <= Aggregate(segs)[b].startTime
  {
    var r := Aggregate(segs);
    forall a, b | 0 <= a < b < |r| ensures r[a].endTime <= r[b].startTime {
      var x, y := r[a].startTime, r[b].startTime;
      assert x == 30 * (x / 30) && y == 30 * (y / 30);
      assert x / 30 < y / 30;
    }
  }

  /** A window appears in the output exactly when some segment starts in it,
      and its text is the normalised join of that window's snippets. */
  lemma PopulatedWindows(segs: seq<Segment>, k: nat)
    ensures (exists j :: 0 <= j < |Aggregate(segs)| && Aggregate(segs)[j].startTime == 30 * k)
        <==> (exists p :: 0 <= p < |segs| && BucketOf(segs[p]) == k)
    ensures forall j :: 0 <= j < |Aggregate(segs)| && Aggregate(segs)[j].startTime == 30 * k ==>
              Aggregate(segs)[j].text == Text.Collapse(Text.Join(SnippetsIn(segs, k), " "))
  {
    var r := Aggregate(segs);
    ReferenceFromContent(segs, 0, Bound(segs));
    SnippetsInNonEmpty(segs, k);
    if k in Buckets(segs) {
      ReferenceComplete(segs, k);
    }
    forall j | 0 <= j < |r| && r[j].startTime == 30 * k
      ensures k in Buckets(segs) && r[j].text == Text.Collapse(Text.Join(SnippetsIn(segs, k), " "))
    {
      assert (30 * k) / 30 == k;
    }
  }

  /** Each segment lands in exactly one interval: the one whose half-open
      range, in milliseconds, contains the segment's start; that interval's
      snippets include the segment's own. */
  lemma SegmentPlacement(segs: seq<Segment>, p: nat)
    requires p < |segs|
    ensures exists j :: 0 <= j < |Aggregate(segs)| && Covers(Aggregate(segs)[j], segs[p].startMs)
    ensures forall j :: 0 <= j < |Aggregate(segs)| && Covers(Aggregate(segs)[j], segs[p].startMs) ==>
              && Aggregate(segs)[j].startTime == 30 * BucketOf(segs[p])
              && SnippetText(segs[p]) in SnippetsIn(segs, BucketOf(segs[p]))
    ensures forall a, b :: 0 <= a < b < |Aggregate(segs)| ==>
              !(Covers(Aggregate(segs)[a], segs[p].startMs) && Covers(Aggregate(segs)[b], segs[p].startMs))
  {
    var r := Aggregate(segs);
    var ms := segs[p].startMs;
    var k := BucketOf(segs[p]);
    assert k in Buckets(segs);
    ReferenceComplete(segs, k);
    var j :| 0 <= j < |r| && r[j].startTime == 30 * k;
    CoversWindow(r[j], ms);
    forall i | 0 <= i < |r| ensures Covers(r[i], ms) <==> r[i].startTime == 30 * k {
      CoversWindow(r[i], ms);
    }
    SnippetOfOwnBucket(segs, p);
  }

  /** Some interval of `r` covers the instant `ms`, and every one that does
      starts at `start`. */
  predicate CoveredOnlyFrom(r: seq<Interval>, ms: int, start: int) {
    && (exists j :: 0 <= j < |r| && Covers(r[j], ms))
    && (forall j :: 0 <= j < |r| && Covers(r[j], ms) ==> r[j].startTime == start)
  }

  /** `SegmentPlacement` as one fact: the segment's start is covered, and
      only by its own window. */
  lemma SegmentWindow(segs: seq<Segment>, p: nat)
    requires p < |segs|
    ensures CoveredOnlyFrom(Aggregate(segs), segs[p].startMs, 30 * BucketOf(segs[p]))
  {
    SegmentPlacement(segs, p);
  }

  /** The interval's range `[startTime, endTime)`, in seconds, contains the
      instant `ms` milliseconds into the video. */
  predicate Covers(iv: Interval, ms: int) {
    iv.startTime * 1000 <= ms < iv.endTime * 1000
  }

  /** An aligned window covers an instant exactly when it is that instant's
      window. */
  lemma CoversWindow(iv: Interval, ms: nat)
    requires Aligned(iv)
    ensures Covers(iv, ms) <==> iv.startTime == 30 * (ms / 30000)
  {
    assert iv.startTime == 30 * (iv.startTime / 30);
  }

  lemma {:induction false} SnippetOfOwnBucket(segs: seq<Segment>, p: nat)
    requires p < |segs|
    ensures SnippetText(segs[p]) in SnippetsIn(segs, BucketOf(segs[p]))
    decreases p
  {
    if p > 0 {
      assert segs[1..][p - 1] == segs[p];
      SnippetOfOwnBucket(segs[1..], p - 1);
    }
  }

  /** The output depends on the input only through each window's snippet
      list: segments of different windows may arrive in any order. */
  lemma {:induction false} OrderIndependent(s1: seq<Segment>, s2: seq<Segment>)
    requires forall k :: SnippetsIn(s1, k) == SnippetsIn(s2, k)
    ensures Aggregate(s1) == Aggregate(s2)
  {
    assert Buckets(s1) == Buckets(s2) by {
      forall k | k in Buckets(s1) ensures k in Buckets(s2) {
        SnippetsInNonEmpty(s1, k);
        SnippetsInNonEmpty(s2, k);
      }
      forall k | k in Buckets(s2) ensures k in Buckets(s1) {
        SnippetsInNonEmpty(s1, k);
        SnippetsInNonEmpty(s2, k);
      }
    }
    BoundOfBuckets(s1, s2);
    ReferenceFromEqual(s1, s2, 0, Bound(s1));
  }

  lemma BoundOfBuckets(s1: seq<Segment>, s2: seq<Segment>)
    requires Buckets(s1) == Buckets(s2)
    ensures Bound(s1) == Bound(s2)
  {
  }

  lemma {:induction false} ReferenceFromEqual(s1: seq<Segment>, s2: seq<Segment>, i: nat, n: nat)
    requires forall k :: SnippetsIn(s1, k) == SnippetsIn(s2, k)
    ensures ReferenceFrom(s1, i, n) == ReferenceFrom(s2, i, n)
    decreases n - i
  {
    if i < n {
      ReferenceFromEqual(s1, s2, i + 1, n);
      assert IntervalOf(s1, i) == IntervalOf(s2, i);
    }
  }
}
