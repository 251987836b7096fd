/** After the last column the ranks exchange vectors: for every cluster one rank owns the
    output files, and every other rank announces a count and then sends its vectors. */
module Exchange {
  import opened Common
  import opened CapacityCut
  import opened HardAssign
  import opened QuotaRounds

  // ---- The label columns a rank ends with ----

  /** Column `c` of a rank, whatever its limits were at that time. */
  ghost predicate IsColumn(run: Run, r: nat, c: nat, col: seq<int>)
    requires Usable(run) && r < |run.data| && c < run.columns
  {
    exists remaining :: |remaining| == run.clusters && col == Column(Work(run, r, c), remaining)
  }

  lemma {:induction false} ColumnsKept(run: Run, n: nat, r: nat)
    requires Usable(run) && n <= run.columns && r < |run.data|
    ensures |After(run, n)[r].columns| == n
    ensures forall c :: 0 <= c < n ==> IsColumn(run, r, c, After(run, n)[r].columns[c])
  {
    hide Column, Members, Quota, Total, After, IsColumn;
    if n == 0 {
      StartsEmpty(run, r);
    } else {
      ColumnsKept(run, n - 1, r);
      ColumnAdded(run, n - 1, r);
    }
  }

  lemma StartsEmpty(run: Run, r: nat)
    requires Usable(run) && r < |run.data|
    ensures After(run, 0)[r].columns == []
  {
  }

  lemma ColumnAdded(run: Run, n: nat, r: nat)
    requires Usable(run) && n < run.columns && r < |run.data|
    ensures var s, s' := After(run, n)[r], After(run, n + 1)[r];
            && s'.cum == AssignLocal(run, r, s, n).cum
            && s'.columns == AssignLocal(run, r, s, n).columns
            && |s'.columns| == |s.columns| + 1 && s'.columns[..|s.columns|] == s.columns
            && IsColumn(run, r, n, s'.columns[|s.columns|])
  {
    hide Column, Members, Quota, Total, After;
    AfterStep(run, n);
    var s := After(run, n)[r];
    var next := AssignAll(run, After(run, n), n);
    assert After(run, n + 1)[r] == RefreshOne(run, next, r);
    assert IsColumn(run, r, n, Column(Work(run, r, n), Minus(s.limit, s.cum)));
  }

  /** The label table from the distances alone: column c of a rank labels row i with k exactly when k takes it in that
      column, and labels no row with anything that is not a cluster. */
  lemma {:induction false} LabelsTaken(run: Run, n: nat, r: nat, c: nat, i: nat, k: int)
    requires Usable(run) && c < n <= run.columns && r < |run.data| && i < |run.data[r]|
    ensures |After(run, n)[r].columns| == n && |After(run, n)[r].columns[c]| == |run.data[r]|
    ensures 0 <= k < run.clusters ==> (After(run, n)[r].columns[c][i] == k <==> Takes(run, c, r, i, k))
    ensures var l := After(run, n)[r].columns[c][i]; l == UNASSIGNED || 0 <= l < run.clusters
  {
    hide After, AssignLocal, Takes, IsColumn, Usable;
    ColumnAdded(run, n - 1, r);
    ColumnsKept(run, n, r);
    var before, now := After(run, n - 1)[r].columns, After(run, n)[r].columns;
    if c < n - 1 {
      LabelsTaken(run, n - 1, r, c, i, k);
      assert now[..n - 1][c] == before[c];
    } else {
      ColumnLabels(run, r, c, now[c], i);
      if 0 <= k < run.clusters { ColumnTakes(run, c, r, i, k); }
    }
  }

  lemma ColumnLabels(run: Run, r: nat, c: nat, col: seq<int>, i: nat)
    requires Usable(run) && r < |run.data| && c < run.columns && i < |run.data[r]| && IsColumn(run, r, c, col)
    ensures |col| == |run.data[r]| && (col[i] == UNASSIGNED || 0 <= col[i] < run.clusters)
  {
    hide Column, Keeps, Item;
    var remaining :| |remaining| == run.clusters && col == Column(Work(run, r, c), remaining);
    LabelIs(Work(run, r, c), remaining, i);
  }

  /** No vector carries the same cluster in two columns. */
  lemma NoClusterTwice(run: Run, r: nat, a: nat, b: nat, i: nat, ca: seq<int>, cb: seq<int>)
    requires Usable(run) && r < |run.data| && a < run.columns && b < run.columns && a != b && i < |run.data[r]|
    requires IsColumn(run, r, a, ca) && IsColumn(run, r, b, cb)
    ensures |ca| == |cb| == |run.data[r]|
    ensures ca[i] == cb[i] ==> ca[i] == UNASSIGNED
  {
    hide Column, Keeps, Nearest;
    var ra :| |ra| == run.clusters && ca == Column(Work(run, r, a), ra);
    var rb :| |rb| == run.clusters && cb == Column(Work(run, r, b), rb);
    LabelIs(Work(run, r, a), ra, i);
    LabelIs(Work(run, r, b), rb, i);
    NearestInjective(run.data[r][i], a, b);
  }

  // ---- Counting labels row by row and column by column ----

  ghost function CountTo(col: seq<int>, k: int, m: nat): nat
    requires m <= |col|
  {
    if m == 0 then 0 else CountTo(col, k, m - 1) + if col[m - 1] == k then 1 else 0
  }

  ghost function MembersTo(col: seq<int>, k: int, m: nat): set<int>
    requires m <= |col|
  {
    set i | 0 <= i < m && col[i] == k
  }

  lemma {:induction false} CountIsMembers(col: seq<int>, k: int, m: nat)
    requires m <= |col|
    ensures CountTo(col, k, m) == |MembersTo(col, k, m)|
  {
    if m > 0 {
      CountIsMembers(col, k, m - 1);
      var rest := MembersTo(col, k, m - 1);
      assert MembersTo(col, k, m) == if col[m - 1] == k then rest + {m - 1} else rest;
    } else {
      assert MembersTo(col, k, m) == {};
    }
  }

  ghost predicate Rect(columns: seq<seq<int>>, rows: nat) {
    forall c :: 0 <= c < |columns| ==> |columns[c]| == rows
  }

  /** Members of cluster `k` in the first `n` columns, each counted over the first `m` rows. */
  ghost function ColumnSum(columns: seq<seq<int>>, k: int, rows: nat, n: nat, m: nat): nat
    requires Rect(columns, rows) && n <= |columns| && m <= rows
  {
    if n == 0 then 0 else ColumnSum(columns, k, rows, n - 1, m) + CountTo(columns[n - 1], k, m)
  }

  /** What the inner loop over columns sends for one row. */
  ghost function RowSends(columns: seq<seq<int>>, k: int, j: nat, n: nat): seq<int>
    requires n <= |columns| && forall c :: 0 <= c < |columns| ==> j < |columns[c]|
  {
    if n == 0 then [] else RowSends(columns, k, j, n - 1) + if columns[n - 1][j] == k then [j] else []
  }

  /** The rows a rank sends (or stores) for cluster `k`, in the order of its loops. */
  ghost function Sends(columns: seq<seq<int>>, k: int, rows: nat, m: nat): seq<int>
    requires Rect(columns, rows) && m <= rows
  {
    if m == 0 then [] else Sends(columns, k, rows, m - 1) + RowSends(columns, k, m - 1, |columns|)
  }

  lemma {:induction false} RowAddsUp(columns: seq<seq<int>>, k: int, rows: nat, n: nat, m: nat)
    requires Rect(columns, rows) && n <= |columns| && 1 <= m <= rows
    ensures ColumnSum(columns, k, rows, n, m)
         == ColumnSum(columns, k, rows, n, m - 1) + |RowSends(columns, k, m - 1, n)|
  {
    if n > 0 {
      RowAddsUp(columns, k, rows, n - 1, m);
    }
  }

  lemma {:induction false} EmptySum(columns: seq<seq<int>>, k: int, rows: nat, n: nat)
    requires Rect(columns, rows) && n <= |columns|
    ensures ColumnSum(columns, k, rows, n, 0) == 0
  {
    if n > 0 {
      EmptySum(columns, k, rows, n - 1);
    }
  }

  /** Summing by rows or by columns gives the same number. */
  lemma {:induction false} SendsCount(columns: seq<seq<int>>, k: int, rows: nat, m: nat)
    requires Rect(columns, rows) && m <= rows
    ensures |Sends(columns, k, rows, m)| == ColumnSum(columns, k, rows, |columns|, m)
  {
    hide ColumnSum, RowSends;
    if m == 0 {
      EmptySum(columns, k, rows, |columns|);
    } else {
      SendsCount(columns, k, rows, m - 1);
      RowAddsUp(columns, k, rows, |columns|, m);
    }
  }

  lemma {:induction false} SumOfPrefix(a: seq<seq<int>>, b: seq<seq<int>>, k: int, rows: nat, n: nat)
    requires Rect(a, rows) && Rect(b, rows) && n <= |a| && n <= |b| && forall c :: 0 <= c < n ==> a[c] == b[c]
    ensures ColumnSum(a, k, rows, n, rows) == ColumnSum(b, k, rows, n, rows)
  {
    if n > 0 {
      SumOfPrefix(a, b, k, rows, n - 1);
    }
  }

  lemma ColumnsAreRect(run: Run, n: nat, r: nat)
    requires Usable(run) && n <= run.columns && r < |run.data|
    ensures |After(run, n)[r].columns| == n && Rect(After(run, n)[r].columns, |run.data[r]|)
  {
    hide After, Column;
    ColumnsKept(run, n, r);
    var columns := After(run, n)[r].columns;
    forall c | 0 <= c < n ensures |columns[c]| == |run.data[r]| {
      assert IsColumn(run, r, c, columns[c]);
    }
  }

  /** The counter a rank announces is the number of labels it has given out. */
  lemma {:induction false} CumIsColumnSum(run: Run, n: nat, r: nat, k: nat)
    requires Usable(run) && n <= run.columns && r < |run.data| && k < run.clusters
    ensures Rect(After(run, n)[r].columns, |run.data[r]|) && |After(run, n)[r].columns| == n
    ensures After(run, n)[r].cum[k] == ColumnSum(After(run, n)[r].columns, k, |run.data[r]|, n, |run.data[r]|)
  {
    hide Column, Quota, Total, After, IsColumn, Work, Usable;
    ColumnsAreRect(run, n, r);
    if n == 0 {
      AtStart(run, k);
    } else {
      var rows := |run.data[r]|;
      var s := After(run, n - 1)[r];
      CumIsColumnSum(run, n - 1, r, k);
      ColumnAdded(run, n - 1, r);
      var col := After(run, n)[r].columns[n - 1];
      assert After(run, n)[r].columns == s.columns + [col];
      SumOfPrefix(s.columns, s.columns + [col], k, rows, n - 1);
      CountIsMembers(col, k, rows);
      assert MembersTo(col, k, rows) == Members(col, k);
    }
  }

  ghost function RankSends(run: Run, r: nat, k: nat): seq<int>
    requires Usable(run) && r < |run.data|
  {
    ColumnsAreRect(run, run.columns, r);
    Sends(After(run, run.columns)[r].columns, k, |run.data[r]|, |run.data[r]|)
  }

  lemma {:induction false} RowSentOnce(run: Run, r: nat, k: nat, columns: seq<seq<int>>, j: nat, n: nat)
    requires Usable(run) && r < |run.data| && k < run.clusters && j < |run.data[r]|
    requires Rect(columns, |run.data[r]|) && n <= |columns| <= run.columns
    requires forall c :: 0 <= c < |columns| ==> IsColumn(run, r, c, columns[c])
    ensures RowSends(columns, k, j, n) == [] || RowSends(columns, k, j, n) == [j]
    ensures RowSends(columns, k, j, n) == [] ==> forall c :: 0 <= c < n ==> columns[c][j] != k
    ensures RowSends(columns, k, j, n) == [j] ==> exists c :: 0 <= c < n && columns[c][j] == k
  {
    hide IsColumn, Usable;
    if n > 0 {
      RowSentOnce(run, r, k, columns, j, n - 1);
      if columns[n - 1][j] == k && RowSends(columns, k, j, n - 1) == [j] {
        var c :| 0 <= c < n - 1 && columns[c][j] == k;
        ClustersBelowUnassigned(run);
        NoClusterTwice(run, r, c, n - 1, j, columns[c], columns[n - 1]);
      }
    }
  }

  lemma ClustersBelowUnassigned(run: Run)
    requires Usable(run)
    ensures run.clusters <= UNASSIGNED
  {
  }

  ghost predicate Climbs(s: seq<int>, limit: int) {
    && (forall p :: 0 <= p < |s| ==> 0 <= s[p] < limit)
    && (forall p, q :: 0 <= p < q < |s| ==> s[p] < s[q])
  }

  lemma ClimbOn(s: seq<int>, row: seq<int>, j: nat)
    requires Climbs(s, j) && (row == [] || row == [j])
    ensures Climbs(s + row, j + 1)
  {
  }

  lemma {:induction false} SendsIncrease(run: Run, r: nat, k: nat, columns: seq<seq<int>>, m: nat)
    requires Usable(run) && r < |run.data| && k < run.clusters && m <= |run.data[r]|
    requires Rect(columns, |run.data[r]|) && |columns| <= run.columns
    requires forall c :: 0 <= c < |columns| ==> IsColumn(run, r, c, columns[c])
    ensures Climbs(Sends(columns, k, |run.data[r]|, m), m)
  {
    hide IsColumn, Usable;
    if m > 0 {
      SendsIncrease(run, r, k, columns, m - 1);
      RowSentOnce(run, r, k, columns, m - 1, |columns|);
      ClimbOn(Sends(columns, k, |run.data[r]|, m - 1), RowSends(columns, k, m - 1, |columns|), m - 1);
    }
  }

  /** No vector is sent twice for a cluster: the rows a rank sends strictly increase. */
  lemma SentOnce(run: Run, r: nat, k: nat)
    requires Usable(run) && r < |run.data| && k < run.clusters
    ensures Climbs(RankSends(run, r, k), |run.data[r]|)
  {
    hide After, IsColumn;
    ColumnsKept(run, run.columns, r);
    ColumnsAreRect(run, run.columns, r);
    SendsIncrease(run, r, k, After(run, run.columns)[r].columns, |run.data[r]|);
  }

  ghost function AllSends(run: Run, k: nat, n: nat): nat
    requires Usable(run) && n <= |run.data|
  {
    if n == 0 then 0 else AllSends(run, k, n - 1) + |RankSends(run, n - 1, k)|
  }

  /** Each rank's announced count equals the vectors it sends. */
  lemma AnnouncedCount(run: Run, r: nat, k: nat)
    requires Usable(run) && r < |run.data| && k < run.clusters
    ensures After(run, run.columns)[r].cum[k] == |RankSends(run, r, k)|
  {
    hide After, Sends, ColumnSum;
    CumIsColumnSum(run, run.columns, r, k);
    SendsCount(After(run, run.columns)[r].columns, k, |run.data[r]|, |run.data[r]|);
  }

  lemma {:induction false} HeaderSum(run: Run, k: nat, n: nat)
    requires Usable(run) && k < run.clusters && n <= |run.data|
    ensures Global(After(run, run.columns), k, n) == AllSends(run, k, n)
  {
    hide After, RankSends;
    if n > 0 {
      HeaderSum(run, k, n - 1);
      AnnouncedCount(run, n - 1, k);
    }
  }

  /** The header the owner writes equals the vectors all ranks contribute. */
  lemma HeaderCount(run: Run, k: nat)
    requires Usable(run) && k < run.clusters
    ensures Total(run, After(run, run.columns), k) == AllSends(run, k, |run.data|)
  {
    hide After, AllSends;
    HeaderSum(run, k, |run.data|);
  }

  // ---- The messages ----

  /** Messages by tag: count, vector, metadata length, metadata. */
  datatype Msg = Announce(n: int) | Vector(row: int) | MetaLength(n: int) | Meta(bytes: Bytes)

  function Tag(m: Msg): nat {
    match m
    case Announce(_) => 0
    case Vector(_) => 1
    case MetaLength(_) => 2
    case Meta(_) => 3
  }

  /** A rank's metadata of its own rows, if its metadata files were there to load. */
  datatype Metas = NoMetas | Metas(of: int -> Bytes)

  function VectorMessages(row: int, metas: Metas): seq<Msg> {
    match metas
    case NoMetas => [Vector(row)]
    case Metas(of) => [Vector(row), MetaLength(|of(row)|), Meta(of(row))]
  }

  function Body(rows: seq<int>, metas: Metas): seq<Msg> {
    if rows == [] then [] else VectorMessages(rows[0], metas) + Body(rows[1..], metas)
  }

  /** Everything one rank sends for one cluster. */
  function Stream(announced: int, rows: seq<int>, metas: Metas): seq<Msg> {
    [Announce(announced)] + Body(rows, metas)
  }

  lemma {:induction false} BodyAppend(rows: seq<int>, row: int, metas: Metas)
    ensures Body(rows + [row], metas) == Body(rows, metas) + VectorMessages(row, metas)
  {
    if rows != [] {
      BodyAppend(rows[1..], row, metas);
      assert (rows + [row])[1..] == rows[1..] + [row];
      assert VectorMessages(rows[0], metas) + (Body(rows[1..], metas) + VectorMessages(row, metas))
          == (VectorMessages(rows[0], metas) + Body(rows[1..], metas)) + VectorMessages(row, metas);
    }
  }

  lemma BodyFrom(rows: seq<int>, metas: Metas, k: nat)
    requires k < |rows|
    ensures Body(rows[k..], metas) == VectorMessages(rows[k], metas) + Body(rows[k + 1..], metas)
  {
    assert rows[k..][1..] == rows[k + 1..];
  }

  // ---- Receiving by tag ----

  ghost predicate Without(queue: seq<Msg>, tag: nat) {
    forall p :: 0 <= p < |queue| ==> Tag(queue[p]) != tag
  }

  /** Where the first message with the tag is, or the length when there is none. */
  ghost function Find(queue: seq<Msg>, tag: nat): (at: nat)
    ensures at <= |queue| && (at < |queue| ==> Tag(queue[at]) == tag)
    ensures forall p :: 0 <= p < at ==> Tag(queue[p]) != tag
  {
    if queue == [] || Tag(queue[0]) == tag then 0 else Find(queue[1..], tag) + 1
  }

  lemma FindIs(queue: seq<Msg>, tag: nat, i: nat)
    requires i <= |queue| && (forall p :: 0 <= p < i ==> Tag(queue[p]) != tag) && (i < |queue| ==> Tag(queue[i]) == tag)
    ensures Find(queue, tag) == i
  {
    hide Find;
  }

  /** MPI_Recv: takes the first waiting message with the tag, past others; without one it waits for ever. */
  method Receive(queue: seq<Msg>, tag: nat) returns (m: Option<Msg>, rest: seq<Msg>)
    ensures var at := Find(queue, tag);
            if at < |queue| then m == Some(queue[at]) && rest == queue[..at] + queue[at + 1..]
            else m == None && rest == queue
  {
    var i := 0;
    while i < |queue| && Tag(queue[i]) != tag
      invariant 0 <= i <= |queue| && forall p :: 0 <= p < i ==> Tag(queue[p]) != tag
    {
      i := i + 1;
    }
    FindIs(queue, tag, i);
    if i < |queue| {
      m, rest := Some(queue[i]), queue[..i] + queue[i + 1..];
    } else {
      m, rest := None, queue;
    }
  }

  /** Where a receive finds its message when everything before it has other tags. */
  lemma FoundAt(before: seq<Msg>, m: Msg, after: seq<Msg>, queue: seq<Msg>)
    requires queue == before + [m] + after && Without(before, Tag(m))
    ensures Find(queue, Tag(m)) == |before| && queue[|before|] == m
    ensures queue[..|before|] + queue[|before| + 1..] == before + after
  {
    assert queue[|before|] == m;
    assert forall p :: 0 <= p < |before| ==> queue[p] == before[p];
    FindIs(queue, Tag(m), |before|);
    assert queue[..|before|] == before && queue[|before| + 1..] == after;
  }

  lemma NothingBefore(queue: seq<Msg>, m: Msg, after: seq<Msg>)
    requires queue == [m] + after
    ensures Find(queue, Tag(m)) == 0 && queue[..0] + queue[1..] == after
  {
    FindIs(queue, Tag(m), 0);
  }

  /** The messages of one row that a receiver without metadata leaves in the queue. */
  function Skipped(row: int, metas: Metas, own: bool): seq<Msg> {
    if metas.Metas? && !own then [MetaLength(|metas.of(row)|), Meta(metas.of(row))] else []
  }

  ghost function Unread(rows: seq<int>, metas: Metas, own: bool): seq<Msg> {
    if rows == [] then [] else Unread(rows[..|rows| - 1], metas, own) + Skipped(rows[|rows| - 1], metas, own)
  }

  /** What the receiver makes of the sender's metadata. */
  function Seen(metas: Metas, own: bool): Metas {
    if own then metas else NoMetas
  }

  lemma {:induction false} UnreadFacts(rows: seq<int>, metas: Metas, own: bool)
    ensures Without(Unread(rows, metas, own), 0) && Without(Unread(rows, metas, own), 1)
    ensures own ==> Unread(rows, metas, own) == []
    ensures Unread(rows, metas, own) == [] <==> rows == [] || own || metas.NoMetas?
  {
    if rows != [] {
      UnreadFacts(rows[..|rows| - 1], metas, own);
    }
  }

  /** Ranks that disagree: a receiver without metadata leaves two messages for every vector unread. */
  lemma {:induction false} MixedLeavesUnread(rows: seq<int>, metas: Metas)
    requires metas.Metas?
    ensures |Unread(rows, metas, false)| == 2 * |rows|
  {
    if rows != [] { MixedLeavesUnread(rows[..|rows| - 1], metas); }
  }

  lemma UnreadNext(rows: seq<int>, metas: Metas, own: bool, k: nat)
    requires k < |rows|
    ensures Unread(rows[..k + 1], metas, own) == Unread(rows[..k], metas, own) + Skipped(rows[k], metas, own)
  {
    assert rows[..k + 1][..k] == rows[..k];
  }

  lemma {:induction false} PlainBody(rows: seq<int>)
    ensures Without(Body(rows, NoMetas), 2)
  {
    if rows != [] { PlainBody(rows[1..]); }
  }

  /** The files an owner writes for one cluster: vectors by sending rank and row. */
  datatype Files = Files(header: int, vectors: seq<(int, int)>, meta: Bytes, offsets: seq<nat>)

  /** One vector appended, with its metadata and the offset where the metadata starts. */
  function Append(f: Files, rank: int, row: int, metas: Metas): Files {
    match metas
    case NoMetas => f.(vectors := f.vectors + [(rank, row)])
    case Metas(of) => f.(vectors := f.vectors + [(rank, row)], offsets := f.offsets + [|f.meta|], meta := f.meta + of(row))
  }

  function AppendAll(f: Files, rank: int, rows: seq<int>, metas: Metas): Files {
    if rows == [] then f
    else Append(AppendAll(f, rank, rows[..|rows| - 1], metas), rank, rows[|rows| - 1], metas)
  }

  lemma AppendNext(f: Files, rank: int, rows: seq<int>, metas: Metas, i: nat)
    requires i < |rows|
    ensures AppendAll(f, rank, rows[..i + 1], metas)
         == Append(AppendAll(f, rank, rows[..i], metas), rank, rows[i], metas)
  {
    assert rows[..i + 1][..i] == rows[..i];
  }

  /** A vector's receives.  Whether it asks for metadata is the receiver's own affair, `own`; so it waits for ever
      (`ok` is false) exactly when it wants metadata the sender does not have, and reads past metadata it does not want. */
  method ReceiveOne(queue: seq<Msg>, rank: int, own: bool, files: Files,
                    ghost unread: seq<Msg>, ghost row: int, ghost metas: Metas, ghost later: seq<Msg>)
    returns (ok: bool, out: Files, rest: seq<Msg>)
    requires queue == unread + VectorMessages(row, metas) + later && Without(unread, 1)
    requires own ==> unread == [] && (metas.NoMetas? ==> Without(later, 2))
    ensures ok <==> !own || metas.Metas?
    ensures ok ==> rest == unread + Skipped(row, metas, own) + later && out == Append(files, rank, row, Seen(metas, own))
  {
    hide Find;
    ghost var tail := VectorMessages(row, metas)[1..] + later;
    assert queue == unread + [Vector(row)] + tail;
    var m;
    m, rest := Receive(queue, 1);
    FoundAt(unread, Vector(row), tail, queue);
    assert rest == unread + tail;
    out := files.(vectors := files.vectors + [(rank, m.value.row)]);
    ok := true;
    if own {
      out, ok, rest := ReceiveMeta(rest, files, out, row, metas, later);
    } else {
      assert tail == Skipped(row, metas, own) + later;
      assert unread + (Skipped(row, metas, own) + later) == unread + Skipped(row, metas, own) + later;
    }
  }

  /** A receive whose message, if it comes at all, is the next one. */
  method ReceiveHead(queue: seq<Msg>, tag: nat, ghost head: Option<Msg>, ghost after: seq<Msg>)
    returns (m: Option<Msg>, rest: seq<Msg>)
    requires if head.Some? then Tag(head.value) == tag && queue == [head.value] + after
             else queue == after && Without(after, tag)
    ensures m == head && rest == after
  {
    m, rest := Receive(queue, tag);
    if head.Some? {
      NothingBefore(queue, head.value, after);
    } else {
      FindIs(queue, tag, |queue|);
    }
  }

  /** Length, then that many bytes. */
  method ReceiveMeta(queue: seq<Msg>, files: Files, with: Files, ghost row: int, ghost metas: Metas, ghost later: seq<Msg>)
    returns (out: Files, ok: bool, rest: seq<Msg>)
    requires queue == VectorMessages(row, metas)[1..] + later && (metas.NoMetas? ==> Without(later, 2))
    requires with == files.(vectors := with.vectors)
    ensures ok <==> metas.Metas?
    ensures ok ==> rest == later && out == with.(offsets := files.offsets + [|files.meta|], meta := files.meta + metas.of(row))
  {
    hide Without;
    out := with;
    ghost var bytes := if metas.Metas? then metas.of(row) else [];
    ghost var head := if metas.Metas? then Some(MetaLength(|bytes|)) else None;
    ghost var tail := if metas.Metas? then [Meta(bytes)] + later else later;
    assert queue == if metas.Metas? then [MetaLength(|bytes|)] + tail else tail;
    var length, m;
    length, rest := ReceiveHead(queue, 2, head, tail);
    if length.None? { return out, false, rest; }
    m, rest := ReceiveHead(rest, 3, Some(Meta(bytes)), later);
    out := out.(meta := out.meta + m.value.bytes, offsets := out.offsets + [|out.meta|]);
    ok := true;
  }

  /** Messages an owner without metadata left from its earlier clusters: none it will ask for again. */
  ghost predicate Stale(queue: seq<Msg>, own: bool) {
    Without(queue, 0) && Without(queue, 1) && (own ==> queue == [])
  }

  /** The queue after k vectors. */
  ghost function QueueAt(stale: seq<Msg>, rows: seq<int>, metas: Metas, own: bool, k: nat): seq<Msg>
    requires k <= |rows|
  {
    (stale + Unread(rows[..k], metas, own)) + Body(rows[k..], metas)
  }

  lemma QueueEnds(stale: seq<Msg>, rows: seq<int>, metas: Metas, own: bool)
    ensures QueueAt(stale, rows, metas, own, 0) == stale + Body(rows, metas)
    ensures QueueAt(stale, rows, metas, own, |rows|) == stale + Unread(rows, metas, own)
  {
    assert rows[..0] == [] && rows[0..] == rows && rows[..|rows|] == rows && rows[|rows|..] == [];
  }

  /** The next vector. */
  method ReceiveNext(queue: seq<Msg>, rank: int, own: bool, files: Files,
                     ghost stale: seq<Msg>, ghost rows: seq<int>, ghost metas: Metas, ghost k: nat)
    returns (ok: bool, out: Files, rest: seq<Msg>)
    requires k < |rows| && Stale(stale, own) && queue == QueueAt(stale, rows, metas, own, k)
    ensures ok <==> !own || metas.Metas?
    ensures ok ==> rest == QueueAt(stale, rows, metas, own, k + 1) && out == Append(files, rank, rows[k], Seen(metas, own))
  {
    hide Body, VectorMessages, Append, Unread, Without, Skipped;
    BodyFrom(rows, metas, k);
    UnreadFacts(rows[..k], metas, own);
    UnreadNext(rows, metas, own, k);
    PlainBody(rows[k + 1..]);
    ghost var unread, later := stale + Unread(rows[..k], metas, own), Body(rows[k + 1..], metas);
    WithoutBoth(stale, Unread(rows[..k], metas, own), 1);
    assert queue == unread + VectorMessages(rows[k], metas) + later;
    ok, out, rest := ReceiveOne(queue, rank, own, files, unread, rows[k], metas, later);
    assert unread + Skipped(rows[k], metas, own) == stale + Unread(rows[..k + 1], metas, own);
  }

  /** Receiving from one rank, past what is left of earlier clusters: the announced count, then that many vectors. */
  method ReceiveFrom(queue: seq<Msg>, rank: int, own: bool, files: Files,
                     ghost stale: seq<Msg>, ghost rows: seq<int>, ghost metas: Metas)
    returns (ok: bool, out: Files, rest: seq<Msg>)
    requires queue == stale + Stream(|rows|, rows, metas) && Stale(stale, own)
    ensures ok <==> rows == [] || !own || metas.Metas?
    ensures ok ==> && rest == stale + Unread(rows, metas, own) && Stale(rest, own)
                   && out == AppendAll(files, rank, rows, Seen(metas, own))
    ensures ok && rest == stale <==> rows == [] || metas.Metas? == own
  {
    hide Body, AppendAll, Append, Unread, Without, QueueAt;
    EmptyBody(files, rank, Seen(metas, own));
    QueueEnds(stale, rows, metas, own);
    StaleAfter(stale, rows, metas, own);
    assert rows[..0] == [];
    ok, out := true, files;
    var first;
    first, rest := Receive(queue, 0);
    assert queue == stale + [Announce(|rows|)] + Body(rows, metas);
    FoundAt(stale, Announce(|rows|), Body(rows, metas), queue);
    var recv := first.value.n;
    var k := 0;
    while k < recv
      invariant 0 <= k <= recv == |rows|
      invariant k > 0 ==> !own || metas.Metas?
      invariant rest == QueueAt(stale, rows, metas, own, k)
      invariant out == AppendAll(files, rank, rows[..k], Seen(metas, own))
    {
      AppendNext(files, rank, rows, Seen(metas, own), k);
      ok, out, rest := ReceiveNext(rest, rank, own, out, stale, rows, metas, k);
      if !ok { return; }
      k := k + 1;
    }
    assert rows[..k] == rows;
  }

  lemma StaleAfter(stale: seq<Msg>, rows: seq<int>, metas: Metas, own: bool)
    requires Stale(stale, own)
    ensures Stale(stale + Unread(rows, metas, own), own)
    ensures stale + Unread(rows, metas, own) == stale <==> rows == [] || own || metas.NoMetas?
  {
    hide Unread, Without;
    UnreadFacts(rows, metas, own);
    WithoutBoth(stale, Unread(rows, metas, own), 0);
    WithoutBoth(stale, Unread(rows, metas, own), 1);
    assert |stale + Unread(rows, metas, own)| == |stale| + |Unread(rows, metas, own)|;
  }

  lemma WithoutBoth(a: seq<Msg>, b: seq<Msg>, tag: nat)
    requires Without(a, tag) && Without(b, tag)
    ensures Without(a + b, tag)
  {
  }

  lemma EmptyBody(f: Files, rank: int, metas: Metas)
    ensures Body([], metas) == [] && AppendAll(f, rank, [], metas) == f
  {
  }

  // ---- Rows of the label table ----

  /** The label table, by rows, holds the first `n` columns of a rank. */
  ghost predicate Holds(labels: seq<seq<int>>, columns: seq<seq<int>>, n: nat, width: nat) {
    && n <= |columns| && n <= width
    && (forall i :: 0 <= i < |labels| ==> |labels[i]| == width)
    && (forall c :: 0 <= c < n ==> |columns[c]| == |labels|)
    && (forall i, c :: 0 <= i < |labels| && 0 <= c < n ==> labels[i][c] == columns[c][i])
  }

  ghost predicate Tabulates(labels: seq<seq<int>>, columns: seq<seq<int>>) {
    Holds(labels, columns, |columns|, |columns|)
  }

  /** The owner's own rows: a double loop over rows and columns, straight to the files. */
  method StoreLocal(labels: seq<seq<int>>, k: int, rank: int, metas: Metas, files: Files, ghost columns: seq<seq<int>>)
    returns (out: Files)
    requires Tabulates(labels, columns)
    ensures out == AppendAll(files, rank, Sends(columns, k, |labels|, |labels|), metas)
  {
    hide AppendAll, Append;
    EmptyBody(files, rank, metas);
    out := files;
    var j := 0;
    while j < |labels|
      invariant 0 <= j <= |labels|
      invariant out == AppendAll(files, rank, Sends(columns, k, |labels|, j), metas)
    {
      ghost var before := Sends(columns, k, |labels|, j);
      var kk := 0;
      assert before + [] == before;
      while kk < |labels[j]|
        invariant 0 <= kk <= |columns|
        invariant out == AppendAll(files, rank, before + RowSends(columns, k, j, kk), metas)
      {
        ghost var so := before + RowSends(columns, k, j, kk);
        if labels[j][kk] == k {
          AppendOneMore(files, rank, so, j, metas);
          assert before + RowSends(columns, k, j, kk + 1) == so + [j];
          out := Append(out, rank, j, metas);
        } else {
          assert before + RowSends(columns, k, j, kk + 1) == so;
        }
        kk := kk + 1;
      }
      j := j + 1;
    }
  }

  /** A sender: the announced count, then the same double loop. */
  method SendCluster(announced: int, labels: seq<seq<int>>, k: int, metas: Metas, ghost columns: seq<seq<int>>)
    returns (queue: seq<Msg>)
    requires Tabulates(labels, columns)
    ensures queue == Stream(announced, Sends(columns, k, |labels|, |labels|), metas)
  {
    hide Body, VectorMessages;
    EmptyBody(Files(0, [], [], []), 0, metas);
    queue := [Announce(announced)];
    var j := 0;
    while j < |labels|
      invariant 0 <= j <= |labels|
      invariant queue == Stream(announced, Sends(columns, k, |labels|, j), metas)
    {
      ghost var before := Sends(columns, k, |labels|, j);
      var kk := 0;
      assert before + [] == before;
      while kk < |labels[j]|
        invariant 0 <= kk <= |columns|
        invariant queue == Stream(announced, before + RowSends(columns, k, j, kk), metas)
      {
        ghost var so := before + RowSends(columns, k, j, kk);
        if labels[j][kk] == k {
          BodyAppend(so, j, metas);
          assert before + RowSends(columns, k, j, kk + 1) == so + [j];
          queue := queue + VectorMessages(j, metas);
        } else {
          assert before + RowSends(columns, k, j, kk + 1) == so;
        }
        kk := kk + 1;
      }
      j := j + 1;
    }
  }

  lemma AppendOneMore(f: Files, rank: int, rows: seq<int>, row: int, metas: Metas)
    ensures AppendAll(f, rank, rows + [row], metas) == Append(AppendAll(f, rank, rows, metas), rank, row, metas)
  {
    assert (rows + [row])[..|rows|] == rows;
  }

  // ---- The owner ----

  /** What the owner has written after the first `n` ranks, if it does not get stuck. */
  ghost function Gathered(f: Files, sends: seq<seq<int>>, metas: seq<Metas>, own: bool, n: nat): Files
    requires n <= |sends| == |metas|
  {
    if n == 0 then f
    else AppendAll(Gathered(f, sends, metas, own, n - 1), n - 1, sends[n - 1], Seen(metas[n - 1], own))
  }

  /** Rank j has nothing to send, or carries metadata exactly when the owner does. */
  ghost predicate InTune(sends: seq<seq<int>>, metas: seq<Metas>, own: bool, j: nat)
    requires j < |sends| == |metas|
  {
    sends[j] == [] || metas[j].Metas? == own
  }

  ghost predicate AllInTune(sends: seq<seq<int>>, metas: seq<Metas>, own: bool)
    requires |sends| == |metas|
  {
    forall j :: 0 <= j < |sends| ==> InTune(sends, metas, own, j)
  }

  /** No rank makes the owner wait for metadata that never comes. */
  ghost predicate AllPassable(sends: seq<seq<int>>, metas: seq<Metas>, own: bool)
    requires |sends| == |metas|
  {
    forall j :: 0 <= j < |sends| ==> sends[j] == [] || !own || metas[j].Metas?
  }

  ghost predicate AllStale(queues: seq<seq<Msg>>, own: bool) {
    forall j :: 0 <= j < |queues| ==> Stale(queues[j], own)
  }

  /** The owner's loop over ranks, on queues that may still hold messages of its earlier clusters; `rests` are the messages
      queued afterwards, by rank. */
  method GatherCluster(header: int, k: int, owner: nat, queues: seq<seq<Msg>>, ownMetas: Metas, labels: seq<seq<int>>,
                       ghost stale: seq<seq<Msg>>, ghost columns: seq<seq<int>>, ghost sends: seq<seq<int>>,
                       ghost metas: seq<Metas>)
    returns (ok: bool, files: Files, rests: seq<seq<Msg>>)
    requires owner < |queues| == |metas| == |sends| == |stale| && metas[owner] == ownMetas && Tabulates(labels, columns)
    requires AllStale(stale, ownMetas.Metas?) && queues[owner] == stale[owner]
    requires forall j :: 0 <= j < |queues| && j != owner ==> queues[j] == stale[j] + Stream(|sends[j]|, sends[j], metas[j])
    requires sends[owner] == Sends(columns, k, |labels|, |labels|)
    ensures ok <==> AllPassable(sends, metas, ownMetas.Metas?)
    ensures ok ==> files == Gathered(Files(header, [], [], []), sends, metas, ownMetas.Metas?, |sends|)
    ensures ok ==> |rests| == |queues| && AllStale(rests, ownMetas.Metas?)
    ensures ok ==> forall j :: 0 <= j < |rests| ==> (rests[j] == stale[j] <==> InTune(sends, metas, ownMetas.Metas?, j))
    ensures ok ==> forall j :: 0 <= j < |rests| && rests[j] == [] ==> stale[j] == []
    ensures ok && rests == stale <==> AllInTune(sends, metas, ownMetas.Metas?)
  {
    hide AppendAll, Stream, Sends, Tabulates, Stale, Unread, Without, Rect, Holds;
    ok, files, rests := true, Files(header, [], [], []), [];
    var own := ownMetas.Metas?;
    while |rests| < |queues|
      invariant |rests| <= |queues| && ok
      invariant files == Gathered(Files(header, [], [], []), sends, metas, own, |rests|)
      invariant forall j :: 0 <= j < |rests| ==> sends[j] == [] || !own || metas[j].Metas?
      invariant forall j :: 0 <= j < |rests| ==> ReadFrom(sends, metas, own, j, stale[j], rests[j])
    {
      var j, rest := |rests|, queues[|rests|];
      if j != owner {
        ok, files, rest := ReceiveFrom(queues[j], j, own, files, stale[j], sends[j], metas[j]);
        if !ok {
          assert !InTune(sends, metas, own, j);
          return;
        }
      } else {
        files := StoreLocal(labels, k, j, ownMetas, files, columns);
        assert Seen(metas[j], own) == ownMetas;
      }
      assert ReadFrom(sends, metas, own, j, stale[j], rest);
      hide ReadFrom;
      rests := rests + [rest];
    }
    ReadFromAll(sends, metas, own, stale, rests);
  }

  /** What is queued from rank j afterwards: as before exactly when the rank is in tune, and never less. */
  ghost predicate ReadFrom(sends: seq<seq<int>>, metas: seq<Metas>, own: bool, j: nat, stale: seq<Msg>, rest: seq<Msg>)
    requires j < |sends| == |metas|
  {
    (rest == stale <==> InTune(sends, metas, own, j)) && Stale(rest, own) && (rest == [] ==> stale == [])
  }

  lemma ReadFromAll(sends: seq<seq<int>>, metas: seq<Metas>, own: bool, stale: seq<seq<Msg>>, rests: seq<seq<Msg>>)
    requires |stale| == |rests| == |sends| == |metas|
    requires forall j :: 0 <= j < |rests| ==> ReadFrom(sends, metas, own, j, stale[j], rests[j])
    ensures AllStale(rests, own) && (rests == stale <==> AllInTune(sends, metas, own))
    ensures forall j :: 0 <= j < |rests| ==> (rests[j] == stale[j] <==> InTune(sends, metas, own, j))
    ensures forall j :: 0 <= j < |rests| && rests[j] == [] ==> stale[j] == []
  {
    hide Stale, InTune;
    forall j | 0 <= j < |rests| ensures Stale(rests[j], own) && (rests[j] == stale[j] <==> InTune(sends, metas, own, j)) {
      assert ReadFrom(sends, metas, own, j, stale[j], rests[j]);
    }
    if AllInTune(sends, metas, own) {
      assert rests == stale;
    }
    if rests == stale {
      assert forall j :: 0 <= j < |rests| ==> rests[j] == stale[j];
    }
  }

  lemma {:induction false} AppendAllSize(f: Files, rank: int, rows: seq<int>, metas: Metas)
    ensures var g := AppendAll(f, rank, rows, metas);
            g.header == f.header && |g.vectors| == |f.vectors| + |rows|
  {
    if rows != [] {
      AppendAllSize(f, rank, rows[..|rows| - 1], metas);
    }
  }

  lemma {:induction false} GatheredSize(run: Run, k: nat, f: Files, sends: seq<seq<int>>, metas: seq<Metas>, own: bool, n: nat)
    requires Usable(run) && n <= |sends| == |metas| == |run.data|
    requires forall r :: 0 <= r < |sends| ==> sends[r] == RankSends(run, r, k)
    ensures var g := Gathered(f, sends, metas, own, n);
            g.header == f.header && |g.vectors| == |f.vectors| + AllSends(run, k, n)
  {
    hide AppendAll, RankSends;
    if n > 0 {
      GatheredSize(run, k, f, sends, metas, own, n - 1);
      AppendAllSize(Gathered(f, sends, metas, own, n - 1), n - 1, sends[n - 1], Seen(metas[n - 1], own));
    }
  }

  /** With the counts of the finished run every announced count is right, and the files an owner gathers hold exactly as
      many vectors as their header says. */
  lemma ExchangeAgreement(run: Run, k: nat, sends: seq<seq<int>>, metas: seq<Metas>, own: bool)
    requires Usable(run) && k < run.clusters && |sends| == |metas| == |run.data|
    requires forall r :: 0 <= r < |sends| ==> sends[r] == RankSends(run, r, k)
    ensures var ranks := After(run, run.columns);
            && (forall r :: 0 <= r < |sends| ==> ranks[r].cum[k] == |sends[r]|)
            && var files := Gathered(Files(Total(run, ranks, k), [], [], []), sends, metas, own, |sends|);
               files.header == |files.vectors|
  {
    hide After, RankSends, Gathered, AllSends, Total;
    forall r | 0 <= r < |sends| ensures After(run, run.columns)[r].cum[k] == |sends[r]| {
      AnnouncedCount(run, r, k);
    }
    HeaderCount(run, k);
    GatheredSize(run, k, Files(Total(run, After(run, run.columns), k), [], [], []), sends, metas, own, |sends|);
  }

  // ---- The files from the distances alone ----

  lemma {:induction false} RowSendsMembers(columns: seq<seq<int>>, k: int, j: nat, n: nat, x: int)
    requires n <= |columns| && forall c :: 0 <= c < |columns| ==> j < |columns[c]|
    ensures x in RowSends(columns, k, j, n) <==> x == j && exists c :: 0 <= c < n && columns[c][j] == k
  {
    if n > 0 {
      RowSendsMembers(columns, k, j, n - 1, x);
    }
  }

  ghost predicate Labelled(columns: seq<seq<int>>, rows: nat, j: nat, k: int)
    requires Rect(columns, rows) && j < rows
  {
    exists c :: 0 <= c < |columns| && columns[c][j] == k
  }

  lemma {:induction false} SendsMembers(columns: seq<seq<int>>, k: int, rows: nat, m: nat, x: int)
    requires Rect(columns, rows) && m <= rows
    ensures x in Sends(columns, k, rows, m) <==> 0 <= x < m && Labelled(columns, rows, x, k)
  {
    hide RowSends;
    if m > 0 {
      SendsMembers(columns, k, rows, m - 1, x);
      RowSendsMembers(columns, k, m - 1, |columns|, x);
    }
  }

  /** Row i of rank r belongs to cluster k: in some column k takes it. */
  ghost predicate Belongs(run: Run, r: nat, i: int, k: nat)
    requires Usable(run) && r < |run.data| && k < run.clusters
  {
    0 <= i < |run.data[r]| && exists c :: 0 <= c < run.columns && Takes(run, c, r, i, k)
  }

  /** A rank sends for a cluster exactly the rows that the cluster takes. */
  lemma SendsBelong(run: Run, r: nat, k: nat, i: int)
    requires Usable(run) && r < |run.data| && k < run.clusters
    ensures i in RankSends(run, r, k) <==> Belongs(run, r, i, k)
  {
    hide After, Takes, Sends, Usable;
    ColumnsAreRect(run, run.columns, r);
    var columns := After(run, run.columns)[r].columns;
    SendsMembers(columns, k, |run.data[r]|, |run.data[r]|, i);
    if 0 <= i < |run.data[r]| {
      forall c | 0 <= c < run.columns ensures columns[c][i] == k <==> Takes(run, c, r, i, k) {
        LabelsTaken(run, run.columns, r, c, i, k);
      }
    }
  }

  /** Vectors in file order: by rank, then by row. */
  ghost predicate InFileOrder(v: seq<(int, int)>) {
    forall p, q :: 0 <= p < q < |v| ==> v[p].0 < v[q].0 || (v[p].0 == v[q].0 && v[p].1 < v[q].1)
  }

  ghost predicate ListsOnly(run: Run, k: nat, n: nat, v: seq<(int, int)>)
    requires Usable(run) && k < run.clusters && n <= |run.data|
  {
    forall p :: 0 <= p < |v| ==> 0 <= v[p].0 < n && Belongs(run, v[p].0, v[p].1, k)
  }

  ghost predicate ListsAll(run: Run, k: nat, n: nat, v: seq<(int, int)>)
    requires Usable(run) && k < run.clusters && n <= |run.data|
  {
    forall r, i :: 0 <= r < n && Belongs(run, r, i, k) ==> (r, i) in v
  }

  /** The vectors of the first n ranks that belong to cluster k, each once, by rank and row. */
  ghost predicate Lists(run: Run, k: nat, n: nat, v: seq<(int, int)>)
    requires Usable(run) && k < run.clusters && n <= |run.data|
  {
    InFileOrder(v) && ListsOnly(run, k, n, v) && ListsAll(run, k, n, v)
  }

  ghost function Marked(rank: int, rows: seq<int>): (v: seq<(int, int)>)
    ensures |v| == |rows| && forall p :: 0 <= p < |v| ==> v[p] == (rank, rows[p])
  {
    seq(|rows|, p requires 0 <= p < |rows| => (rank, rows[p]))
  }

  lemma {:induction false} AppendAllVectors(f: Files, rank: int, rows: seq<int>, metas: Metas)
    ensures AppendAll(f, rank, rows, metas).vectors == f.vectors + Marked(rank, rows)
  {
    if rows != [] {
      var m := |rows| - 1;
      AppendAllVectors(f, rank, rows[..m], metas);
      assert Marked(rank, rows) == Marked(rank, rows[..m]) + [(rank, rows[m])];
    }
  }

  lemma OrderGrows(v: seq<(int, int)>, rank: nat, rows: seq<int>, limit: nat)
    requires InFileOrder(v) && Climbs(rows, limit) && forall p :: 0 <= p < |v| ==> v[p].0 < rank
    ensures InFileOrder(v + Marked(rank, rows))
  {
  }

  lemma ListsMore(run: Run, k: nat, n: nat, v: seq<(int, int)>, rows: seq<int>)
    requires Usable(run) && k < run.clusters && n < |run.data| && Lists(run, k, n, v)
    requires Climbs(rows, |run.data[n]|) && forall i :: i in rows <==> Belongs(run, n, i, k)
    ensures Lists(run, k, n + 1, v + Marked(n, rows))
  {
    hide Belongs, Usable, InFileOrder, Climbs;
    OrderGrows(v, n, rows, |run.data[n]|);
    var w := v + Marked(n, rows);
    forall p | 0 <= p < |w| ensures 0 <= w[p].0 < n + 1 && Belongs(run, w[p].0, w[p].1, k) {
      if p >= |v| { assert rows[p - |v|] in rows; }
    }
    forall r, i | 0 <= r < n + 1 && Belongs(run, r, i, k) ensures (r, i) in w {
      if r == n {
        var p :| 0 <= p < |rows| && rows[p] == i;
        assert w[|v| + p] == (r, i);
      } else {
        assert (r, i) in v;
      }
    }
  }

  /** What an owner gathers for a cluster are the vectors that belong to it, from the distances alone. */
  lemma {:induction false} GatheredLists(run: Run, k: nat, header: int, sends: seq<seq<int>>, metas: seq<Metas>, own: bool, n: nat)
    requires Usable(run) && k < run.clusters && n <= |sends| == |metas| == |run.data|
    requires forall r :: 0 <= r < |sends| ==> sends[r] == RankSends(run, r, k)
    ensures Lists(run, k, n, Gathered(Files(header, [], [], []), sends, metas, own, n).vectors)
  {
    hide AppendAll, RankSends, Belongs, Usable, Lists, Climbs;
    if n == 0 {
      NothingListed(run, k);
    } else {
      GatheredLists(run, k, header, sends, metas, own, n - 1);
      var before := Gathered(Files(header, [], [], []), sends, metas, own, n - 1);
      AppendAllVectors(before, n - 1, sends[n - 1], Seen(metas[n - 1], own));
      SentOnce(run, n - 1, k);
      var rank, rows := n - 1, sends[n - 1];
      forall i ensures i in rows <==> Belongs(run, rank, i, k) {
        SendsBelong(run, rank, k, i);
      }
      ListsMore(run, k, rank, before.vectors, rows);
    }
  }

  lemma NothingListed(run: Run, k: nat)
    requires Usable(run) && k < run.clusters
    ensures Lists(run, k, 0, [])
  {
    hide Belongs;
  }
}
