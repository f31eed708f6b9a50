/**
  services/pagination.py: cursor pagination over a table ordered by descending identifier,
  while newer rows keep arriving.
 */
module Pagination {
  import opened Wrappers

  /** A table in query order, as the identifiers of its rows. */
  type Table = seq<int>

  predicate Descending(t: Table) { forall i, j :: 0 <= i < j < |t| ==> t[i] > t[j] }

  datatype Window = Window(rows: seq<int>, hasMore: bool, nextCursor: Option<int>)

  function Take(t: Table, n: nat): Table { if n <= |t| then t[..n] else t }

  /** `WHERE id < cursor` */
  function Below(t: Table, cursor: int): Table {
    if t == [] then [] else (if t[0] < cursor then [t[0]] else []) + Below(t[1..], cursor)
  }

  /** `apply_cursor_window` */
  function ApplyCursorWindow(t: Table, page: nat, size: nat, cursor: Option<int>): Table
    requires page >= 1
  {
    var from := if cursor.Some? then Below(t, cursor.value)
                else if (page - 1) * size <= |t| then t[(page - 1) * size..] else [];
    Take(from, size + 1)
  }

  /** `trim_cursor_window` */
  function TrimCursorWindow(rows: Table, size: nat): Window {
    var hasMore := |rows| > size;
    var visible := Take(rows, size);
    Window(visible, hasMore, if hasMore && visible != [] then Some(visible[|visible| - 1]) else None)
  }

  /** Rows that arrive later have higher identifiers, so they come before all others. */
  ghost predicate Grows(tables: nat -> Table) {
    forall k: nat :: Descending(tables(k)) && Suffix(tables(0), tables(k))
  }

  predicate Suffix(a: Table, b: Table) { |a| <= |b| && b[|b| - |a|..] == a }

  /** The window a client gets on its `k`-th request, following `next_cursor`; the table is the one of that moment. */
  function PageAt(tables: nat -> Table, size: nat, k: nat): Window {
    var cursor := if k == 0 then None else PageAt(tables, size, k - 1).nextCursor;
    TrimCursorWindow(ApplyCursorWindow(tables(k), 1, size, cursor), size)
  }

  lemma {:induction false} BelowAll(t: Table, cursor: int)
    requires forall i :: 0 <= i < |t| ==> t[i] < cursor
    ensures Below(t, cursor) == t
  {
    if t != [] {
      BelowAll(t[1..], cursor);
    }
  }

  lemma {:induction false} BelowRow(t: Table, i: nat)
    requires Descending(t) && i < |t|
    ensures Below(t, t[i]) == t[i + 1..]
  {
    if i == 0 {
      BelowAll(t[1..], t[0]);
    } else {
      BelowRow(t[1..], i - 1);
      assert t[1..][i - 1..][1..] == t[i + 1..];
    }
  }

  lemma BelowOlderRow(base: Table, t: Table, i: nat)
    requires Descending(t) && Suffix(base, t) && i < |base|
    ensures Below(t, base[i]) == base[i + 1..]
  {
    hide Below;
    var n := |t| - |base|;
    assert t[n + i] == t[n..][i];
    BelowRow(t, n + i);
    assert t[n + i + 1..] == t[n..][i + 1..];
  }

  function Min(a: nat, b: nat): nat { if a < b then a else b }

  /** `w` shows `size` rows of `base` from row `from`, or what is left of them. */
  predicate ShowsSlice(base: Table, from: nat, size: nat, w: Window)
    requires size >= 1
  {
    && from <= |base|
    && w.rows == base[from..Min(from + size, |base|)]
    && (w.hasMore <==> from + size < |base|)
    && (w.hasMore ==> w.nextCursor == Some(base[from + size - 1]))
  }

  lemma TrimShowsSlice(base: Table, from: nat, size: nat)
    requires size >= 1 && from <= |base|
    ensures ShowsSlice(base, from, size, TrimCursorWindow(Take(base[from..], size + 1), size))
  {
    var rest := base[from..];
    var rows := Take(rest, size + 1);
    assert Take(rows, size) == base[from..Min(from + size, |base|)];
  }

  /** The `k`-th window is the `k`-th slice of the table as it was at the first request. */
  lemma {:induction false} PageIsSlice(tables: nat -> Table, size: nat, k: nat)
    requires Grows(tables) && size >= 1 && (k == 0 || k * size < |tables(0)|)
    ensures ShowsSlice(tables(0), k * size, size, PageAt(tables, size, k))
  {
    var base := tables(0);
    if k == 0 {
      FirstPage(tables, size);
    } else {
      assert (k - 1) * size + size == k * size;
      PageIsSlice(tables, size, k - 1);
      NextPage(tables, size, k, k * size);
    }
  }

  lemma FirstPage(tables: nat -> Table, size: nat)
    requires Grows(tables) && size >= 1
    ensures ShowsSlice(tables(0), 0, size, PageAt(tables, size, 0))
  {
    hide TrimCursorWindow;
    TrimShowsSlice(tables(0), 0, size);
    assert tables(0)[0..] == tables(0) && (1 - 1) * size == 0;
  }

  /** Without a cursor, page `page` shows the rows behind those of the pages before it, and nothing beyond the table. */
  lemma OffsetPageIsSlice(t: Table, page: nat, size: nat)
    requires page >= 1 && size >= 1
    ensures var w := TrimCursorWindow(ApplyCursorWindow(t, page, size, None), size);
            var from := (page - 1) * size;
            if from <= |t| then ShowsSlice(t, from, size, w) else w.rows == [] && !w.hasMore && w.nextCursor == None
  {
    var from := (page - 1) * size;
    if from <= |t| {
      TrimShowsSlice(t, from, size);
    } else {
      assert Take([], size + 1) == [];
    }
  }

  lemma NextPage(tables: nat -> Table, size: nat, k: nat, from: nat)
    requires Grows(tables) && size >= 1 && k >= 1
    requires 0 < from < |tables(0)| && PageAt(tables, size, k - 1).nextCursor == Some(tables(0)[from - 1])
    ensures ShowsSlice(tables(0), from, size, PageAt(tables, size, k))
  {
    hide TrimCursorWindow, Below;
    TrimShowsSlice(tables(0), from, size);
    BelowOlderRow(tables(0), tables(k), from - 1);
  }

  /** Everything seen in the first `n` windows. */
  function Visited(tables: nat -> Table, size: nat, n: nat): seq<int> {
    if n == 0 then [] else Visited(tables, size, n - 1) + PageAt(tables, size, n - 1).rows
  }

  lemma Glue(base: Table, from: nat, to: nat)
    requires from <= to <= |base|
    ensures base[..from] + base[from..to] == base[..to]
  {
  }

  lemma {:induction false} VisitedIsPrefix(tables: nat -> Table, size: nat, n: nat)
    requires Grows(tables) && size >= 1 && (n <= 1 || (n - 1) * size < |tables(0)|)
    ensures Visited(tables, size, n) == tables(0)[..Min(n * size, |tables(0)|)]
  {
    hide Grows, PageAt;
    var base := tables(0);
    if n > 0 {
      var from := (n - 1) * size;
      assert from + size == n * size;
      if n > 1 {
        assert (n - 2) * size + size == from;
      }
      VisitedIsPrefix(tables, size, n - 1);
      PageIsSlice(tables, size, n - 1);
      Glue(base, from, Min(from + size, |base|));
    }
  }

  /** `max(1, ceil(n / size))` */
  function Pages(n: nat, size: nat): nat
    requires size >= 1
  {
    if n == 0 then 1 else (n + size - 1) / size
  }

  lemma PagesBounds(n: nat, size: nat)
    requires size >= 1
    ensures var p := Pages(n, size);
            p >= 1 && p * size >= n && (p == 1 || (p - 1) * size < n)
  {
    if n > 0 {
      var p := (n + size - 1) / size;
      assert p * size <= n + size - 1 < (p + 1) * size;
      assert (p + 1) * size == p * size + size && (p - 1) * size == p * size - size;
    }
  }

  /** Following the cursor visits each row that was there at the start exactly once, in order, and
      the first window without more is the last of `max(1, ceil(n / size))`. */
  lemma SweepVisitsEveryRowOnce(tables: nat -> Table, size: nat, k: nat)
    requires Grows(tables) && size >= 1
    requires k < Pages(|tables(0)|, size)
    ensures var p := Pages(|tables(0)|, size);
            && Visited(tables, size, p) == tables(0)
            && (PageAt(tables, size, k).hasMore <==> k < p - 1)
  {
    var n := |tables(0)|;
    var p := Pages(n, size);
    PagesBounds(n, size);
    VisitedIsPrefix(tables, size, p);
    assert tables(0)[..n] == tables(0);
    SliceBound(k, p, size, n);
    PageIsSlice(tables, size, k);
  }

  lemma SliceBound(k: nat, p: nat, size: nat, n: nat)
    requires size >= 1 && k < p && p * size >= n && (p == 1 || (p - 1) * size < n)
    ensures k == 0 || k * size < n
    ensures k * size + size < n <==> k < p - 1
  {
    if k < p - 1 {
      MoreRows(k + 1, p - 1, size);
    } else {
      assert k * size + size == p * size;
    }
  }

  lemma MoreRows(k: nat, m: nat, size: nat)
    requires k <= m
    ensures k * size <= m * size
  {
  }
}
