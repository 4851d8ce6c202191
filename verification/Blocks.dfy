/** Merging contiguous slots of one space and date into blocks: the common meaning of the three mergers of the
    backend, and the merger of `booking/event_summary.py`. */
module Blocks {
  import opened Common
  import opened Lists

  /** A time of day in minutes, the "HH:MM" of the slots. */
  type Minute = m: int | 0 <= m < 1440 witness 0

  /** A slot's start and end. */
  datatype Iv = Iv(ini: Minute, fin: Minute)

  function Length(v: Iv): int {
    v.fin - v.ini
  }

  /** Order by start, then by end. */
  function IvKey(v: Iv): int {
    v.ini * 1440 + v.fin
  }

  lemma KeyIsInjective(a: Iv, b: Iv)
    requires IvKey(a) == IvKey(b)
    ensures a == b
  {
  }

  // ----- The canonical order -----

  lemma SortedLastIsLargest(s: seq<Iv>, v: Iv)
    requires SortedBy(IvKey, s) && v in s
    ensures IvKey(v) <= IvKey(s[|s| - 1])
  {
  }

  lemma SameLast(a: seq<Iv>, b: seq<Iv>)
    requires SortedBy(IvKey, a) && SortedBy(IvKey, b) && multiset(a) == multiset(b) && a != [] && b != []
    ensures a[|a| - 1] == b[|b| - 1]
  {
    assert a[|a| - 1] in multiset(b) && b[|b| - 1] in multiset(a);
    SortedLastIsLargest(a, b[|b| - 1]);
    SortedLastIsLargest(b, a[|a| - 1]);
    KeyIsInjective(a[|a| - 1], b[|b| - 1]);
  }

  lemma DropLast(a: seq<Iv>)
    requires a != []
    ensures multiset(a[..|a| - 1]) == multiset(a) - multiset{a[|a| - 1]}
    ensures SortedBy(IvKey, a) ==> SortedBy(IvKey, a[..|a| - 1])
  {
    assert a == a[..|a| - 1] + [a[|a| - 1]];
  }

  lemma SameByLast(a: seq<Iv>, b: seq<Iv>)
    requires a != [] && b != [] && a[..|a| - 1] == b[..|b| - 1] && a[|a| - 1] == b[|b| - 1]
    ensures a == b
  {
    assert a == a[..|a| - 1] + [a[|a| - 1]];
    assert b == b[..|b| - 1] + [b[|b| - 1]];
  }

  lemma SameSize(a: seq<Iv>, b: seq<Iv>)
    requires multiset(a) == multiset(b)
    ensures |a| == |b|
  {
    assert |a| == |multiset(a)| && |b| == |multiset(b)|;
  }

  /** Two sorted sequences with the same slots are the same sequence. */
  lemma {:induction false} SortedIsUnique(a: seq<Iv>, b: seq<Iv>)
    requires SortedBy(IvKey, a) && SortedBy(IvKey, b) && multiset(a) == multiset(b)
    ensures a == b
    decreases |a|
  {
    SameSize(a, b);
    if a != [] {
      SameLast(a, b);
      DropLast(a);
      DropLast(b);
      SortedIsUnique(a[..|a| - 1], b[..|b| - 1]);
      SameByLast(a, b);
    }
  }

  /** A row with its slot: an item index, a cart item or a reservation id. */
  datatype Row<T> = Row(iv: Iv, tag: T)

  function IvOf<T>(r: Row<T>): Iv {
    r.iv
  }

  function RowKey<T>(r: Row<T>): int {
    IvKey(r.iv)
  }

  function Ivs<T>(rows: seq<Row<T>>): (r: seq<Iv>)
    ensures |r| == |rows| && forall i {:trigger r[i]} | 0 <= i < |rows| :: r[i] == rows[i].iv
  {
    MapSeq(IvOf<T>, rows)
  }

  function Tags<T>(rows: seq<Row<T>>): (r: seq<T>)
    ensures |r| == |rows| && forall i {:trigger r[i]} | 0 <= i < |rows| :: r[i] == rows[i].tag
  {
    seq(|rows|, i requires 0 <= i < |rows| => rows[i].tag)
  }

  /** However rows with equal slots were ordered, sorted rows show the slots in their canonical order. */
  lemma SortedView<T>(rows: seq<Row<T>>, sorted: seq<Row<T>>)
    requires multiset(sorted) == multiset(rows) && SortedBy(RowKey<T>, sorted)
    ensures Ivs(sorted) == SortBy(IvKey, Ivs(rows))
  {
    MapPermutation(IvOf<T>, sorted, rows);
    SortBySorts(IvKey, Ivs(rows));
    assert SortedBy(IvKey, Ivs(sorted)) by {
      forall i, j | 0 <= i < j < |sorted|
        ensures IvKey(Ivs(sorted)[i]) <= IvKey(Ivs(sorted)[j])
      {
        assert RowKey(sorted[i]) <= RowKey(sorted[j]);
      }
    }
    SortedIsUnique(Ivs(sorted), SortBy(IvKey, Ivs(rows)));
  }

  // ----- Runs of touching slots -----

  /** From left to right: the closed runs, and the run still open. A slot that starts where the open run ends
      extends it; another closes it and opens a new one. */
  function Scan(s: seq<Iv>): (seq<Iv>, Iv)
    requires s != []
    decreases |s|
  {
    var x := s[|s| - 1];
    if |s| == 1 then ([], x)
    else
      var (closed, open) := Scan(s[..|s| - 1]);
      if open.fin == x.ini then (closed, Iv(open.ini, x.fin)) else (closed + [open], x)
  }

  function Runs(s: seq<Iv>): seq<Iv> {
    if s == [] then []
    else
      var (closed, open) := Scan(s);
      closed + [open]
  }

  /** The blocks of some slots: the runs of their canonical order. */
  function BlocksOf(s: seq<Iv>): seq<Iv> {
    Runs(SortBy(IvKey, s))
  }

  /** The same scan keeping the rows of each run. */
  function ScanRows<T>(s: seq<Row<T>>): (r: (seq<seq<Row<T>>>, seq<Row<T>>))
    requires s != []
    ensures r.1 != []
    decreases |s|
  {
    var x := s[|s| - 1];
    if |s| == 1 then ([], [x])
    else
      var (closed, open) := ScanRows(s[..|s| - 1]);
      if open[|open| - 1].iv.fin == x.iv.ini then (closed, open + [x]) else (closed + [open], [x])
  }

  function Chains<T>(s: seq<Row<T>>): seq<seq<Row<T>>> {
    if s == [] then []
    else
      var (closed, open) := ScanRows(s);
      closed + [open]
  }

  function Concat<T>(c: seq<seq<T>>): seq<T>
    decreases |c|
  {
    if c == [] then [] else Concat(c[..|c| - 1]) + c[|c| - 1]
  }

  lemma ConcatAppend<T>(c: seq<seq<T>>, x: seq<T>)
    ensures Concat(c + [x]) == Concat(c) + x
  {
    assert (c + [x])[..|c|] == c;
  }

  /** Each slot of the chain starts where the one before it ends, and the block goes from the first start to
      the last end. */
  ghost predicate Fills<T>(chain: seq<Row<T>>, block: Iv) {
    && chain != []
    && (forall i | 0 < i < |chain| :: chain[i - 1].iv.fin == chain[i].iv.ini)
    && block.ini == chain[0].iv.ini
    && block.fin == chain[|chain| - 1].iv.fin
  }

  ghost predicate AllFill<T>(c: seq<seq<Row<T>>>, blocks: seq<Iv>) {
    |c| == |blocks| && forall i | 0 <= i < |c| :: Fills(c[i], blocks[i])
  }

  lemma IvsPrefix<T>(s: seq<Row<T>>)
    requires s != []
    ensures Ivs(s[..|s| - 1]) == Ivs(s)[..|s| - 1]
  {
  }

  /** Both scans go together: every chain fills its run. */
  lemma {:induction false} ScansMatch<T>(s: seq<Row<T>>)
    requires s != []
    ensures AllFill(ScanRows(s).0, Scan(Ivs(s)).0) && Fills(ScanRows(s).1, Scan(Ivs(s)).1)
    decreases |s|
  {
    if |s| > 1 {
      IvsPrefix(s);
      ScansMatch(s[..|s| - 1]);
    }
  }

  /** What one more row does to both scans. */
  lemma ScanStep<T>(s: seq<Row<T>>, i: nat)
    requires 0 < i < |s|
    ensures
      var (closed, open) := Scan(Ivs(s[..i]));
      var (chains, chain) := ScanRows(s[..i]);
      if open.fin == s[i].iv.ini
      then Scan(Ivs(s[..i + 1])) == (closed, Iv(open.ini, s[i].iv.fin)) &&
           ScanRows(s[..i + 1]) == (chains, chain + [s[i]])
      else Scan(Ivs(s[..i + 1])) == (closed + [open], s[i].iv) && ScanRows(s[..i + 1]) == (chains + [chain], [s[i]])
  {
    var prefix := s[..i + 1];
    assert prefix[..i] == s[..i] && prefix[i] == s[i];
    IvsPrefix(prefix);
    ScansMatch(s[..i]);
  }

  lemma ChainsFillRuns<T>(s: seq<Row<T>>)
    ensures AllFill(Chains(s), Runs(Ivs(s)))
  {
    if s != [] { ScansMatch(s); }
  }

  /** Together the chains are all the rows, in order. */
  lemma {:induction false} ScanKeepsRows<T>(s: seq<Row<T>>)
    requires s != []
    ensures Concat(ScanRows(s).0) + ScanRows(s).1 == s
    decreases |s|
  {
    var n := |s| - 1;
    if n > 0 {
      ScanKeepsRows(s[..n]);
      assert s == s[..n] + [s[n]];
      var (closed, open) := ScanRows(s[..n]);
      ConcatAppend(closed, open);
    }
  }

  lemma ChainsConcat<T>(s: seq<Row<T>>)
    ensures Concat(Chains(s)) == s
  {
    if s != [] {
      ScanKeepsRows(s);
      ConcatAppend(ScanRows(s).0, ScanRows(s).1);
    }
  }

  /** No run touches the next one. */
  ghost predicate Maximal(r: seq<Iv>) {
    forall i | 0 < i < |r| :: r[i - 1].fin != r[i].ini
  }

  lemma {:induction false} ScanIsMaximal(s: seq<Iv>)
    requires s != []
    ensures Maximal(Scan(s).0 + [Scan(s).1])
    decreases |s|
  {
    if |s| > 1 {
      ScanIsMaximal(s[..|s| - 1]);
      var (closed, open) := Scan(s[..|s| - 1]);
      var before := closed + [open];
      forall i | 0 < i < |closed|
        ensures closed[i - 1].fin != closed[i].ini
      {
        assert before[i - 1] == closed[i - 1] && before[i] == closed[i];
      }
      if closed != [] { assert before[|closed| - 1].fin != before[|closed|].ini; }
    }
  }

  function Lengths(s: seq<Iv>): seq<int> {
    MapSeq(Length, s)
  }

  /** A block is as long as its slots together. */
  lemma {:induction false} BlockLength<T>(chain: seq<Row<T>>, block: Iv)
    requires Fills(chain, block)
    ensures Length(block) == Sum(Lengths(Ivs(chain)))
    decreases |chain|
  {
    var n := |chain| - 1;
    var lengths := Lengths(Ivs(chain));
    assert lengths[..n] == Lengths(Ivs(chain[..n]));
    if n > 0 {
      assert chain[n - 1].iv.fin == chain[n].iv.ini;
      BlockLength(chain[..n], Iv(block.ini, chain[n - 1].iv.fin));
    }
  }

  /** Merging sorted rows partitions them, in order, into maximal runs of touching slots; each block spans its
      run and is as long as its slots together. */
  lemma MergePartitions<T>(s: seq<Row<T>>)
    ensures Concat(Chains(s)) == s && AllFill(Chains(s), Runs(Ivs(s))) && Maximal(Runs(Ivs(s)))
    ensures forall i | 0 <= i < |Chains(s)| :: Length(Runs(Ivs(s))[i]) == Sum(Lengths(Ivs(Chains(s)[i])))
  {
    ChainsConcat(s);
    ChainsFillRuns(s);
    if s != [] { ScanIsMaximal(Ivs(s)); }
    forall i | 0 <= i < |Chains(s)|
      ensures Length(Runs(Ivs(s))[i]) == Sum(Lengths(Ivs(Chains(s)[i])))
    {
      BlockLength(Chains(s)[i], Runs(Ivs(s))[i]);
    }
  }

  lemma LengthsMore(s: seq<Iv>, x: Iv)
    ensures Sum(Lengths(s + [x])) == Sum(Lengths(s)) + Length(x)
  {
    SumMapAppend(Length, s, x);
  }

  lemma {:induction false} ScanKeepsLength(s: seq<Iv>)
    requires s != []
    ensures Sum(Lengths(Scan(s).0)) + Length(Scan(s).1) == Sum(Lengths(s))
    decreases |s|
  {
    var n := |s| - 1;
    assert s == s[..n] + [s[n]];
    LengthsMore(s[..n], s[n]);
    if n > 0 {
      ScanKeepsLength(s[..n]);
      var (closed, open) := Scan(s[..n]);
      LengthsMore(closed, open);
    } else {
      assert Lengths(s[..0]) == [] && Lengths([]) == [];
    }
  }

  /** Together the blocks are as long as the slots. */
  lemma BlocksKeepLength(s: seq<Iv>)
    ensures Sum(Lengths(BlocksOf(s))) == Sum(Lengths(s))
  {
    var sorted := SortBy(IvKey, s);
    SortBySorts(IvKey, s);
    SumMapPermutation(Length, sorted, s);
    if sorted != [] {
      ScanKeepsLength(sorted);
      LengthsMore(Scan(sorted).0, Scan(sorted).1);
    }
  }

  /** A slot of whole hours. */
  predicate HourLong(v: Iv) {
    Length(v) > 0 && Length(v) % 60 == 0
  }

  lemma {:induction false} ScanKeepsHours(s: seq<Iv>)
    requires s != [] && forall i | 0 <= i < |s| :: HourLong(s[i])
    ensures HourLong(Scan(s).1) && forall i | 0 <= i < |Scan(s).0| :: HourLong(Scan(s).0[i])
    decreases |s|
  {
    if |s| > 1 { ScanKeepsHours(s[..|s| - 1]); }
  }

  /** Slots of whole hours make blocks of whole hours. */
  lemma BlocksKeepHours(s: seq<Iv>)
    requires forall i | 0 <= i < |s| :: HourLong(s[i])
    ensures forall i | 0 <= i < |BlocksOf(s)| :: HourLong(BlocksOf(s)[i])
  {
    var sorted := SortBy(IvKey, s);
    SortBySorts(IvKey, s);
    forall i | 0 <= i < |sorted|
      ensures HourLong(sorted[i])
    {
      assert sorted[i] in multiset(s);
    }
    if sorted != [] { ScanKeepsHours(sorted); }
  }

  // ----- Disjoint slots -----

  /** Sorted slots of positive length that do not overlap. */
  ghost predicate InTurn(s: seq<Iv>) {
    && (forall i | 0 <= i < |s| :: s[i].ini < s[i].fin)
    && (forall i | 0 < i < |s| :: s[i - 1].fin <= s[i].ini)
  }

  /** Some slot of s contains the minute. */
  ghost predicate Covers(s: seq<Iv>, minute: int) {
    exists i :: 0 <= i < |s| && s[i].ini <= minute < s[i].fin
  }

  /** Slots of positive length with a gap between any two. */
  ghost predicate Separated(s: seq<Iv>) {
    && (forall i | 0 <= i < |s| :: s[i].ini < s[i].fin)
    && (forall i | 0 < i < |s| :: s[i - 1].fin < s[i].ini)
  }

  /** For slots that do not overlap the blocks are separated by gaps and end where the slots end. */
  lemma {:induction false} DisjointSeparate(s: seq<Iv>)
    requires InTurn(s) && s != []
    ensures Separated(Scan(s).0 + [Scan(s).1]) && Scan(s).1.fin == s[|s| - 1].fin
    decreases |s|
  {
    var n := |s| - 1;
    if n > 0 {
      DisjointSeparate(s[..n]);
      var (closed, open) := Scan(s[..n]);
      assert open.fin == s[n - 1].fin <= s[n].ini;
      SeparatedPrefix(closed, open);
    }
  }

  lemma SeparatedPrefix(closed: seq<Iv>, open: Iv)
    requires Separated(closed + [open])
    ensures Separated(closed) && open.ini < open.fin && (closed != [] ==> closed[|closed| - 1].fin < open.ini)
  {
    var all := closed + [open];
    assert all[|closed|] == open;
    assert forall i | 0 <= i < |closed| :: all[i] == closed[i];
    if closed != [] { assert all[|closed| - 1].fin < all[|closed|].ini; }
    forall i | 0 < i < |closed|
      ensures closed[i - 1].fin < closed[i].ini
    {
      assert all[i - 1].fin < all[i].ini;
    }
  }

  /** The blocks cover exactly the minutes the slots cover. */
  lemma {:induction false} DisjointCover(s: seq<Iv>, minute: int)
    requires InTurn(s) && s != []
    ensures Covers(Scan(s).0 + [Scan(s).1], minute) <==> Covers(s, minute)
    decreases |s|
  {
    var n := |s| - 1;
    assert s == s[..n] + [s[n]];
    CoversAppend(s[..n], s[n], minute);
    if n == 0 {
      CoversAppend([], s[0], minute);
    } else {
      DisjointCover(s[..n], minute);
      DisjointSeparate(s[..n]);
      var (closed, open) := Scan(s[..n]);
      SeparatedPrefix(closed, open);
      CoversJoined(closed, open, s[n], minute);
    }
  }

  /** Extending the open run by a touching slot covers what both covered. */
  lemma CoversJoined(closed: seq<Iv>, open: Iv, x: Iv, minute: int)
    requires open.ini < open.fin && x.ini < x.fin
    ensures
      var r := if open.fin == x.ini then closed + [Iv(open.ini, x.fin)] else closed + [open] + [x];
      Covers(r, minute) <==> Covers(closed + [open], minute) || x.ini <= minute < x.fin
  {
    CoversAppend(closed, open, minute);
    CoversAppend(closed, Iv(open.ini, x.fin), minute);
    CoversAppend(closed + [open], x, minute);
  }

  lemma CoversAppend(s: seq<Iv>, x: Iv, minute: int)
    ensures Covers(s + [x], minute) <==> Covers(s, minute) || x.ini <= minute < x.fin
  {
    if Covers(s, minute) {
      var i :| 0 <= i < |s| && s[i].ini <= minute < s[i].fin;
      assert (s + [x])[i] == s[i];
    }
    if x.ini <= minute < x.fin { assert (s + [x])[|s|] == x; }
  }

  /** The blocks of non-overlapping slots are the unique way to cover the same minutes with separated slots:
      they neither overlap nor touch, and cover exactly what the slots cover. */
  lemma BlocksOfDisjointSlots(s: seq<Iv>, minute: int)
    requires InTurn(SortBy(IvKey, s))
    ensures Separated(BlocksOf(s))
    ensures Covers(BlocksOf(s), minute) <==> Covers(s, minute)
  {
    var sorted := SortBy(IvKey, s);
    SortBySorts(IvKey, s);
    SameSize(sorted, s);
    if s != [] {
      DisjointSeparate(sorted);
      DisjointCover(sorted, minute);
      CoversPermutation(sorted, s, minute);
    }
  }

  lemma CoversPermutation(a: seq<Iv>, b: seq<Iv>, minute: int)
    requires multiset(a) == multiset(b)
    ensures Covers(a, minute) <==> Covers(b, minute)
  {
    if Covers(a, minute) {
      var i :| 0 <= i < |a| && a[i].ini <= minute < a[i].fin;
      assert a[i] in multiset(b);
    }
    if Covers(b, minute) {
      var i :| 0 <= i < |b| && b[i].ini <= minute < b[i].fin;
      assert b[i] in multiset(a);
    }
  }

  // ----- merge_consecutive_slots -----

  /** A block of the event summary with the reservations merged into it. */
  datatype MergedBlock = MergedBlock(iv: Iv, ids: seq<Id>)

  function IdOf(r: Row<Id>): int {
    r.tag
  }

  /** `sorted(rows, key=(hora_inicio, hora_fin, id))`, as a sort by the last key and a stable one by the others. */
  function SummarySorted(rows: seq<Row<Id>>): seq<Row<Id>> {
    SortBy(RowKey<Id>, SortBy(IdOf, rows))
  }

  /** The rows in the order of slots, and of ids within a slot. */
  lemma SummaryOrder(rows: seq<Row<Id>>)
    ensures multiset(SummarySorted(rows)) == multiset(rows)
    ensures SortedByBoth(RowKey<Id>, IdOf, SummarySorted(rows))
  {
    SortBySorts(IdOf, rows);
    SortBySorts(RowKey<Id>, SortBy(IdOf, rows));
    SortByIsStable(RowKey<Id>, IdOf, SortBy(IdOf, rows));
  }

  /** The blocks show these intervals and the ids of these chains. */
  ghost predicate Shows(blocks: seq<MergedBlock>, runs: seq<Iv>, chains: seq<seq<Row<Id>>>) {
    && |blocks| == |runs| == |chains|
    && forall i | 0 <= i < |blocks| :: blocks[i].iv == runs[i] && blocks[i].ids == Tags(chains[i])
  }

  lemma ShowsMore(
    blocks: seq<MergedBlock>, runs: seq<Iv>, chains: seq<seq<Row<Id>>>, b: MergedBlock, run: Iv, chain: seq<Row<Id>>
  )
    requires Shows(blocks, runs, chains) && b == MergedBlock(run, Tags(chain))
    ensures Shows(blocks + [b], runs + [run], chains + [chain])
  {
  }

  lemma TagsMore<T>(chain: seq<Row<T>>, r: Row<T>)
    ensures Tags(chain + [r]) == Tags(chain) + [r.tag]
    ensures Tags([r]) == [r.tag]
  {
  }

  /** The loop of merge_consecutive_slots. */
  method MergeSortedRows(sorted: seq<Row<Id>>) returns (blocks: seq<MergedBlock>)
    ensures Shows(blocks, Runs(Ivs(sorted)), Chains(sorted))
  {
    blocks := [];
    if sorted == [] {
      return;
    }
    var start, end, ids := sorted[0].iv.ini, sorted[0].iv.fin, [sorted[0].tag];
    ghost var runs, chains, open: seq<Row<Id>> := [], [], [sorted[0]];
    for i := 1 to |sorted|
      invariant open != [] && Scan(Ivs(sorted[..i])) == (runs, Iv(start, end)) &&
                ScanRows(sorted[..i]) == (chains, open)
      invariant Shows(blocks, runs, chains) && ids == Tags(open)
    {
      var r := sorted[i];
      ScanStep(sorted, i);
      TagsMore(open, r);
      if end == r.iv.ini {
        end := r.iv.fin;
        ids := ids + [r.tag];
        open := open + [r];
      } else {
        ShowsMore(blocks, runs, chains, MergedBlock(Iv(start, end), ids), Iv(start, end), open);
        runs, chains, open := runs + [Iv(start, end)], chains + [open], [r];
        blocks := blocks + [MergedBlock(Iv(start, end), ids)];
        start, end, ids := r.iv.ini, r.iv.fin, [r.tag];
      }
    }
    assert sorted[..|sorted|] == sorted;
    ShowsMore(blocks, runs, chains, MergedBlock(Iv(start, end), ids), Iv(start, end), open);
    blocks := blocks + [MergedBlock(Iv(start, end), ids)];
  }

  /** merge_consecutive_slots: in whatever order the query returns the rows, the blocks are those of their
      slots, each with the ids of its chain. */
  method MergeConsecutiveSlots(rows: seq<Row<Id>>) returns (blocks: seq<MergedBlock>)
    ensures Shows(blocks, BlocksOf(Ivs(rows)), Chains(SummarySorted(rows)))
    ensures multiset(SummarySorted(rows)) == multiset(rows)
    ensures SortedByBoth(RowKey<Id>, IdOf, SummarySorted(rows))
  {
    SummaryOrder(rows);
    SortedView(rows, SummarySorted(rows));
    blocks := MergeSortedRows(SummarySorted(rows));
  }
}
