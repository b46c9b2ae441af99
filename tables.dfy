/**
  The last two stages of fetch_aws_pricelists.py: truncate_raw_list keeps
  only the wanted columns of every raw price list and writes it under a name
  where `raw` became `trunc`; consolidate_all_tariffs stacks the truncated
  tables into one. A table is what pandas' read_csv hands back: a header of
  column labels and rows of cells, a cell holding text or nothing (NaN).
 */
module Tables {
  import opened Common
  import opened Text
  import opened PriceLists

  datatype Cell = Value(text: string) | Missing

  datatype Table = Table(header: seq<string>, rows: seq<seq<Cell>>)

  /** Every row has one cell per column. */
  predicate WellFormed(t: Table)
  {
    forall i :: 0 <= i < |t.rows| ==> |t.rows[i]| == |t.header|
  }

  /** The cell at a column position; read_csv fills a short row with NaN. */
  function CellAt(row: seq<Cell>, j: nat): Cell
  {
    if j < |row| then row[j] else Missing
  }

  /** The cell of row `i` under the (first) column labelled `c`; nothing when there is no such column. */
  function Lookup(t: Table, i: nat, c: string): Cell
    requires i < |t.rows|
  {
    if c in t.header then CellAt(t.rows[i], FirstIndex(t.header, c)) else Missing
  }

  // ----- dropping columns -----

  /** The positions of the columns whose label is not dropped, from left to right. */
  function KeptColumns(header: seq<string>, drop: set<string>): (idx: seq<nat>)
    ensures forall k :: 0 <= k < |idx| ==> idx[k] < |header| && header[idx[k]] !in drop
    ensures forall k, l :: 0 <= k < l < |idx| ==> idx[k] < idx[l]
    ensures forall j :: 0 <= j < |header| && header[j] !in drop ==> j in idx
  {
    if header == [] then []
    else
      var init := KeptColumns(header[..|header| - 1], drop);
      if header[|header| - 1] in drop then init else init + [|header| - 1]
  }

  /** `data.drop(labels=drop, axis=1)`: the remaining columns keep their order and every row is kept. */
  function Project(t: Table, drop: set<string>): (r: Table)
    ensures WellFormed(r)
  {
    var idx := KeptColumns(t.header, drop);
    Table(seq(|idx|, k requires 0 <= k < |idx| => t.header[idx[k]]),
          seq(|t.rows|, i requires 0 <= i < |t.rows| =>
            seq(|idx|, k requires 0 <= k < |idx| => CellAt(t.rows[i], idx[k]))))
  }

  /** The projection keeps exactly the columns not dropped, and all the rows. */
  lemma ProjectColumns(t: Table, drop: set<string>)
    ensures var r := Project(t, drop);
      && |r.rows| == |t.rows|
      && forall c :: c in r.header <==> c in t.header && c !in drop
  {
    var r := Project(t, drop);
    var idx := KeptColumns(t.header, drop);
    forall c | c in t.header && c !in drop
      ensures c in r.header
    {
      var j :| 0 <= j < |t.header| && t.header[j] == c;
      assert j in idx;
      var k :| 0 <= k < |idx| && idx[k] == j;
      assert r.header[k] == c;
    }
  }

  /** `a` is `b` with some elements left out: its elements stand in `b` in the same order. */
  predicate InOrder(a: seq<string>, b: seq<string>)
  {
    forall k, l :: 0 <= k < l < |a| ==> Before(b, a[k], a[l])
  }

  /** `x` stands somewhere before `y` in `b`. */
  predicate Before(b: seq<string>, x: string, y: string)
  {
    exists i, j :: 0 <= i < j < |b| && b[i] == x && b[j] == y
  }

  /** Two kept columns stand in the same relative order as in the input. */
  lemma ProjectKeepsOrder(t: Table, drop: set<string>)
    ensures InOrder(Project(t, drop).header, t.header)
  {
    var h := Project(t, drop).header;
    var idx := KeptColumns(t.header, drop);
    forall k, l | 0 <= k < l < |h|
      ensures Before(t.header, h[k], h[l])
    {
      var i, j := idx[k], idx[l];
      assert 0 <= i < j < |t.header| && t.header[i] == h[k] && t.header[j] == h[l];
    }
  }

  /** With distinct labels (read_csv renames repeated ones), every kept cell stays under its column. */
  lemma ProjectCells(t: Table, drop: set<string>)
    requires NoDuplicates(t.header)
    ensures var r := Project(t, drop);
      forall i, c :: 0 <= i < |t.rows| && c in r.header ==> Lookup(r, i, c) == Lookup(t, i, c)
  {
    var r := Project(t, drop);
    var idx := KeptColumns(t.header, drop);
    forall i, c | 0 <= i < |t.rows| && c in r.header
      ensures Lookup(r, i, c) == Lookup(t, i, c)
    {
      var k := FirstIndex(r.header, c);
      assert r.header[k] == c && t.header[idx[k]] == c;
      assert FirstIndex(t.header, c) == idx[k];
      assert Lookup(r, i, c) == r.rows[i][k];
    }
  }

  /**
    An in-memory data frame whose columns `drop(..., inplace=True)` removes.
   */
  class Frame {
    var header: seq<string>
    var rows: seq<seq<Cell>>

    /** `pd.read_csv(...)`: a frame holding the table read. */
    constructor (t: Table)
      ensures header == t.header && rows == t.rows
    {
      header := t.header;
      rows := t.rows;
    }

    function Contents(): Table
      reads this
    {
      Table(header, rows)
    }

    /** Removes the labelled columns in place; pandas raises KeyError for a label that is absent. */
    method Drop(labels: set<string>)
      requires forall c :: c in labels ==> c in header
      modifies this
      ensures Contents() == Project(old(Contents()), labels)
    {
      var r := Project(Contents(), labels);
      header, rows := r.header, r.rows;
    }
  }

  // ----- truncate_raw_list -----

  /**
    One entry of a directory listing, with what read_csv makes of it: a
    table, or the exception it raises (an empty file, such as the one a failed
    download leaves, has no columns to parse).
   */
  datatype DirEntry = DirEntry(name: string, isFile: bool, table: Outcome<Table>)

  /** A table written to a CSV file. */
  datatype TableFile = TableFile(name: string, table: Table)

  /** `os.path.isfile(path) and f.endswith(".csv")` */
  predicate IsCsvFile(e: DirEntry)
  {
    e.isFile && EndsWith(e.name, ".csv")
  }

  /** The entries that are processed, in listing order. */
  function Selected(entries: seq<DirEntry>): (r: seq<DirEntry>)
  {
    if entries == [] then []
    else
      var init := Selected(entries[..|entries| - 1]);
      if IsCsvFile(entries[|entries| - 1]) then init + [entries[|entries| - 1]] else init
  }

  /** An entry is processed exactly when it is a regular file whose name ends in `.csv`. */
  lemma {:induction false} SelectedMembership(entries: seq<DirEntry>)
    ensures |Selected(entries)| <= |entries|
    ensures forall e :: e in Selected(entries) <==> e in entries && IsCsvFile(e)
  {
    if entries != [] {
      var init := entries[..|entries| - 1];
      SelectedMembership(init);
      assert entries == init + [entries[|entries| - 1]];
    }
  }

  /** `f.replace("raw", "trunc")` */
  function TruncName(name: string): string
  {
    ReplaceAll(name, "raw", "trunc")
  }

  /** A truncated name that starts with a letter other than 't' starts where the original did. */
  lemma TruncNameHead(v: string, ch: char)
    requires TruncName(v) != [] && TruncName(v)[0] == ch && ch != 't'
    ensures v != [] && v[0] == ch
  {
  }

  /** A truncated name that starts with "aw" comes from a name that starts with "aw". */
  lemma TruncNameAw(v: string)
    requires |TruncName(v)| >= 2 && TruncName(v)[0] == 'a' && TruncName(v)[1] == 'w'
    ensures |v| >= 2 && v[0] == 'a' && v[1] == 'w'
  {
    if |v| >= 3 && v[..3] != "raw" {
      assert TruncName(v) == [v[0]] + TruncName(v[1..]);
      TruncNameHead(v[1..], 'w');
    }
  }

  /** The replacement leaves no "raw" behind. */
  lemma {:induction false} TruncNameFree(name: string)
    ensures Free(TruncName(name), "raw")
    decreases |name|
  {
    var r := TruncName(name);
    if |name| < 3 {
      assert r == name;
    } else if name[..3] == "raw" {
      var rest := TruncName(name[3..]);
      assert r == "trunc" + rest;
      TruncNameFree(name[3..]);
      forall i | 0 <= i < 5
        ensures !Occurs("trunc" + rest, "raw", i)
      {
        var t := "trunc" + rest;
        if i + 3 <= |t| {
          assert t[..5] == "trunc";
          assert t[i..i + 3][0] == t[i];
          assert t[i..i + 3][1] == t[i + 1];
        }
      }
      FreeAfterClearHead("trunc", rest, "raw");
    } else {
      var rest := TruncName(name[1..]);
      assert r == [name[0]] + rest;
      TruncNameFree(name[1..]);
      TruncNameStartsRaw(name);
      FreeAfterClearHead([name[0]], rest, "raw");
    }
  }

  /** Truncating a truncated name changes nothing. */
  lemma TruncNameIdempotent(name: string)
    ensures TruncName(TruncName(name)) == TruncName(name)
  {
    TruncNameFree(name);
    ReplaceAllFree(TruncName(name), "raw", "trunc");
  }

  /** A truncated name starts with "raw" only if the name did. */
  lemma TruncNameStartsRaw(name: string)
    ensures Occurs(TruncName(name), "raw", 0) ==> |name| >= 3 && name[..3] == "raw"
  {
    var r := TruncName(name);
    if Occurs(r, "raw", 0) && |name| >= 3 && name[..3] != "raw" {
      assert r == [name[0]] + TruncName(name[1..]);
      assert r[..3] == "raw";
      assert TruncName(name[1..])[0] == r[1] == 'a';
      assert TruncName(name[1..])[1] == r[2] == 'w';
      TruncNameAw(name[1..]);
      assert false;
    }
  }

  /** The columns that are not used are discarded. */
  function Truncate(t: Table, used: set<string>): Table
  {
    Project(t, Elements(t.header) - used)
  }

  /** A truncated table has exactly the input's used columns, and all its rows. */
  lemma TruncateColumns(t: Table, used: set<string>)
    ensures var r := Truncate(t, used);
      && |r.rows| == |t.rows|
      && forall c :: c in r.header <==> c in t.header && c in used
  {
    ProjectColumns(t, Elements(t.header) - used);
  }

  /** What truncate_raw_list leaves behind: the files written, in listing order, and the read error that ended it, if any. */
  datatype Truncation = Truncation(failure: Option<Error>, written: seq<TableFile>)

  /** The loop of truncate_raw_list: a file that read_csv cannot parse raises and ends it. */
  function TruncateSpec(entries: seq<DirEntry>, used: set<string>): Truncation
  {
    if entries == [] then Truncation(None, [])
    else
      var init := TruncateSpec(entries[..|entries| - 1], used);
      var f := entries[|entries| - 1];
      if init.failure.Some? || !IsCsvFile(f) then init
      else
        match f.table
        case Raised(e) => Truncation(Some(e), init.written)
        case Returned(t) => Truncation(None, init.written + [TableFile(TruncName(f.name), Truncate(t, used))])
  }

  /**
    One truncated file per processed entry, in listing order, named and
    truncated after it, up to the first entry whose read raised; that read's
    exception is the one reported, and without it every processed entry has
    its file.
   */
  lemma {:induction false} TruncateSpecFiles(entries: seq<DirEntry>, used: set<string>)
    ensures var s := TruncateSpec(entries, used);
      var sel := Selected(entries);
      && |s.written| <= |sel|
      && (forall k :: 0 <= k < |s.written| ==>
            sel[k].table.Returned? && s.written[k] == TableFile(TruncName(sel[k].name), Truncate(sel[k].table.value, used)))
      && (s.failure.None? ==> |s.written| == |sel|)
      && (s.failure.Some? ==> |s.written| < |sel| && sel[|s.written|].table == Raised(s.failure.value))
  {
    if entries != [] {
      var init := entries[..|entries| - 1];
      TruncateSpecFiles(init, used);
      var selInit := Selected(init);
      var sel := Selected(entries);
      assert |selInit| <= |sel|;
      assert forall k :: 0 <= k < |selInit| ==> sel[k] == selInit[k];
    }
  }

  /** Once a read has raised, later entries change nothing. */
  lemma {:induction false} TruncateSpecKeepsFailure(entries: seq<DirEntry>, used: set<string>, n: nat)
    requires n <= |entries| && TruncateSpec(entries[..n], used).failure.Some?
    ensures TruncateSpec(entries, used) == TruncateSpec(entries[..n], used)
    decreases |entries| - n
  {
    if n < |entries| {
      assert entries[..n + 1][..n] == entries[..n];
      TruncateSpecKeepsFailure(entries, used, n + 1);
    } else {
      assert entries[..n] == entries;
    }
  }

  /**
    truncate_raw_list: the files written, the exception that ended the loop if
    a read raised, and whether the "no price list found" warning is given.
   */
  method TruncateRawList(entries: seq<DirEntry>, used: set<string>)
    returns (written: seq<TableFile>, failure: Option<Error>, warned: bool)
    ensures Truncation(failure, written) == TruncateSpec(entries, used)
    ensures warned <==> failure.None? && Selected(entries) == []
  {
    written := [];
    var count := 0;
    var i := 0;
    while i < |entries|
      invariant 0 <= i <= |entries|
      invariant TruncateSpec(entries[..i], used) == Truncation(None, written)
      invariant count == |written|
    {
      var f := entries[i];
      var truncName := TruncName(f.name);
      assert entries[..i + 1][..i] == entries[..i];
      if IsCsvFile(f) {
        match f.table {
          case Raised(e) =>
            // read_csv raised: the exception propagates and nothing more is written
            TruncateSpecKeepsFailure(entries, used, i + 1);
            return written, Some(e), false;
          case Returned(t) =>
            count := count + 1;
            var data := new Frame(t);
            var discard := Elements(data.header) - used;
            data.Drop(discard);
            written := written + [TableFile(truncName, data.Contents())];
        }
      }
      i := i + 1;
    }
    assert entries[..i] == entries;
    TruncateSpecFiles(entries, used);
    failure := None;
    warned := !(count > 0);
  }

  /**
    The truncated name of a raw price-list file: only the `raw` that
    store_raw_price_list put in is rewritten, provided neither code contains
    `raw` itself.
   */
  lemma TruncOfRawName(service: string, region: string, n: nat)
    requires Free(service, "raw") && Free(region, "raw")
    ensures TruncName(RawFileName(service, region, n))
         == "price_list_" + service + "_" + region + "_trunc_" + DecimalString(n) + ".csv"
  {
    var tail := "_" + DecimalString(n) + ".csv";
    RawNameSegments(service, region, n);
    TruncNameSegments(service, region, n);
    FreeWithoutLastChar("price_list", "raw");
    FreeWithoutLastChar(tail, "raw");
    ReplaceAllFree(tail, "raw", "trunc");
    ReplaceAllAtStart(tail, "raw", "trunc");
    var afterRegion := "raw" + tail;
    ReplaceAllSkipsSegment(region, '_', afterRegion, "raw", "trunc");
    var afterService := region + "_" + afterRegion;
    ReplaceAllSkipsSegment(service, '_', afterService, "raw", "trunc");
    ReplaceAllSkipsSegment("price_list", '_', service + "_" + afterService, "raw", "trunc");
  }

  /** A raw price-list file name cut at its separators. */
  lemma RawNameSegments(service: string, region: string, n: nat)
    ensures RawFileName(service, region, n)
         == "price_list" + "_" + (service + "_" + (region + "_" + ("raw" + ("_" + DecimalString(n) + ".csv"))))
  {
    NameSegments("price_list_", service, region, "_raw_", "raw", DecimalString(n));
  }

  /** A truncated price-list file name cut at its separators. */
  lemma TruncNameSegments(service: string, region: string, n: nat)
    ensures "price_list_" + service + "_" + region + "_trunc_" + DecimalString(n) + ".csv"
         == "price_list" + "_" + (service + "_" + (region + "_" + ("trunc" + ("_" + DecimalString(n) + ".csv"))))
  {
    NameSegments("price_list_", service, region, "_trunc_", "trunc", DecimalString(n));
  }

  /** Regrouping `prefix + service + "_" + region + "_<mid>_" + digits + ".csv"` around its separators. */
  lemma NameSegments(prefix: string, service: string, region: string, sep: string, mid: string, digits: string)
    requires prefix == "price_list" + "_" && sep == "_" + mid + "_"
    ensures prefix + service + "_" + region + sep + digits + ".csv"
         == "price_list" + "_" + (service + "_" + (region + "_" + (mid + ("_" + digits + ".csv"))))
  {
  }

  // ----- consolidate_all_tariffs -----

  /** The labels of `h` not yet in `acc`, appended in order of appearance. */
  function AddColumns(acc: seq<string>, h: seq<string>): (r: seq<string>)
  {
    if h == [] then acc
    else
      var a := AddColumns(acc, h[..|h| - 1]);
      if h[|h| - 1] in a then a else a + [h[|h| - 1]]
  }

  /** The header of `pd.concat(tables)`: every label, in order of first appearance. */
  function UnionHeader(tables: seq<Table>): seq<string>
  {
    if tables == [] then [] else AddColumns(UnionHeader(tables[..|tables| - 1]), tables[|tables| - 1].header)
  }

  /** A table's rows laid out under another header; absent columns are empty. */
  function Align(t: Table, header: seq<string>): (rows: seq<seq<Cell>>)
    ensures |rows| == |t.rows|
    ensures forall i :: 0 <= i < |rows| ==> |rows[i]| == |header|
  {
    seq(|t.rows|, i requires 0 <= i < |t.rows| =>
      seq(|header|, k requires 0 <= k < |header| => Lookup(t, i, header[k])))
  }

  /** The rows of all tables one after another, laid out under `header`. */
  function ConcatRows(tables: seq<Table>, header: seq<string>): seq<seq<Cell>>
  {
    if tables == [] then [] else ConcatRows(tables[..|tables| - 1], header) + Align(tables[|tables| - 1], header)
  }

  /** `pd.concat(tables, ignore_index=True)` */
  function ConcatTables(tables: seq<Table>): Table
  {
    var header := UnionHeader(tables);
    Table(header, ConcatRows(tables, header))
  }

  /** Number of rows over all tables. */
  function RowTotal(tables: seq<Table>): nat
  {
    if tables == [] then 0 else RowTotal(tables[..|tables| - 1]) + |tables[|tables| - 1].rows|
  }

  lemma {:induction false} AddColumnsShape(acc: seq<string>, h: seq<string>)
    requires NoDuplicates(acc)
    ensures var r := AddColumns(acc, h);
      && NoDuplicates(r)
      && |acc| <= |r| && r[..|acc|] == acc
      && forall c :: c in r <==> c in acc || c in h
  {
    if h != [] {
      var init := h[..|h| - 1];
      AddColumnsShape(acc, init);
      var a := AddColumns(acc, init);
      var c := h[|h| - 1];
      assert h == init + [c];
      if c !in a {
        var r := a + [c];
        assert r[..|acc|] == a[..|acc|];
        forall i, j | 0 <= i < j < |r|
          ensures r[i] != r[j]
        {
          if j == |a| {
            assert r[i] in a;
          } else {
            assert r[i] == a[i] && r[j] == a[j];
          }
        }
      }
    }
  }

  /** The consolidated header holds each label once. */
  lemma {:induction false} UnionHeaderDistinct(tables: seq<Table>)
    ensures NoDuplicates(UnionHeader(tables))
  {
    if tables != [] {
      UnionHeaderDistinct(tables[..|tables| - 1]);
      AddColumnsShape(UnionHeader(tables[..|tables| - 1]), tables[|tables| - 1].header);
    }
  }

  /** The consolidated header holds the labels of all tables and nothing else. */
  lemma {:induction false} UnionHeaderMembers(tables: seq<Table>)
    ensures forall c :: c in UnionHeader(tables) <==> exists n :: 0 <= n < |tables| && c in tables[n].header
  {
    if tables != [] {
      var init := tables[..|tables| - 1];
      var last := tables[|tables| - 1];
      UnionHeaderMembers(init);
      UnionHeaderDistinct(init);
      AddColumnsShape(UnionHeader(init), last.header);
      var u := UnionHeader(tables);
      forall c | c in u
        ensures exists n :: 0 <= n < |tables| && c in tables[n].header
      {
        if c !in last.header {
          var n :| 0 <= n < |init| && c in init[n].header;
          assert tables[n] == init[n];
        }
      }
      forall c, n | 0 <= n < |tables| && c in tables[n].header
        ensures c in u
      {
        if n < |init| {
          assert init[n] == tables[n];
        }
      }
    }
  }

  /** Labels keep the place they got when first seen: the header of the first k tables starts the consolidated one. */
  lemma {:induction false} UnionHeaderPrefix(tables: seq<Table>, k: nat)
    requires k <= |tables|
    ensures var p := UnionHeader(tables[..k]);
      |p| <= |UnionHeader(tables)| && UnionHeader(tables)[..|p|] == p
    decreases |tables|
  {
    if k == |tables| {
      assert tables[..k] == tables;
    } else {
      var init := tables[..|tables| - 1];
      UnionHeaderPrefix(init, k);
      assert init[..k] == tables[..k];
      UnionHeaderDistinct(init);
      var ui := UnionHeader(init);
      AddColumnsShape(ui, tables[|tables| - 1].header);
      var u := UnionHeader(tables);
      var p := UnionHeader(tables[..k]);
      assert u[..|p|] == u[..|ui|][..|p|];
    }
  }

  lemma {:induction false} ConcatRowsLength(tables: seq<Table>, header: seq<string>)
    ensures |ConcatRows(tables, header)| == RowTotal(tables)
  {
    if tables != [] {
      ConcatRowsLength(tables[..|tables| - 1], header);
    }
  }

  /** The consolidated table has as many rows as all the tables together. */
  lemma ConcatRowCount(tables: seq<Table>)
    ensures WellFormed(ConcatTables(tables))
    ensures |ConcatTables(tables).rows| == RowTotal(tables)
  {
    var header := UnionHeader(tables);
    ConcatRowsLength(tables, header);
    ConcatRowsWellFormed(tables, header);
  }

  lemma {:induction false} ConcatRowsWellFormed(tables: seq<Table>, header: seq<string>)
    ensures forall i :: 0 <= i < |ConcatRows(tables, header)| ==> |ConcatRows(tables, header)[i]| == |header|
  {
    if tables != [] {
      var init := tables[..|tables| - 1];
      ConcatRowsWellFormed(init, header);
      var a := ConcatRows(init, header);
      var b := Align(tables[|tables| - 1], header);
      forall i | 0 <= i < |a + b|
        ensures |(a + b)[i]| == |header|
      {
        if i >= |a| {
          assert (a + b)[i] == b[i - |a|];
        }
      }
    }
  }

  /**
    Row `i` of table `n` is row RowTotal(tables[..n]) + i of the consolidated
    table: tables follow one another in the order given, their rows in their
    own order.
   */
  lemma {:induction false} ConcatRowsAt(tables: seq<Table>, header: seq<string>, n: nat, i: nat)
    requires n < |tables| && i < |tables[n].rows|
    ensures RowTotal(tables[..n]) + i < |ConcatRows(tables, header)|
    ensures ConcatRows(tables, header)[RowTotal(tables[..n]) + i] == Align(tables[n], header)[i]
    decreases |tables|
  {
    var init := tables[..|tables| - 1];
    ConcatRowsLength(init, header);
    ConcatRowsLength(tables, header);
    if n == |tables| - 1 {
      assert tables[..n] == init;
    } else {
      ConcatRowsAt(init, header, n, i);
      assert init[..n] == tables[..n];
      assert init[n] == tables[n];
    }
  }

  /**
    Every cell of the consolidated table is the cell of its source row under
    the same label, or empty when that table has no such column.
   */
  lemma ConcatCells(tables: seq<Table>, n: nat, i: nat, c: string)
    requires n < |tables| && i < |tables[n].rows|
    requires c in UnionHeader(tables)
    ensures var r := ConcatTables(tables);
      && RowTotal(tables[..n]) + i < |r.rows|
      && Lookup(r, RowTotal(tables[..n]) + i, c) == Lookup(tables[n], i, c)
      && (c !in tables[n].header ==> Lookup(r, RowTotal(tables[..n]) + i, c) == Missing)
  {
    var header := UnionHeader(tables);
    ConcatRowsAt(tables, header, n, i);
    var k := FirstIndex(header, c);
    assert Align(tables[n], header)[i][k] == Lookup(tables[n], i, header[k]);
  }

  /** When every table has the same header (with distinct labels), consolidation just stacks the rows. */
  lemma {:induction false} ConcatSameHeader(tables: seq<Table>, header: seq<string>)
    requires tables != [] && NoDuplicates(header)
    requires forall n :: 0 <= n < |tables| ==> tables[n].header == header && WellFormed(tables[n])
    ensures ConcatTables(tables) == Table(header, Flatten(RowsOf(tables)))
  {
    UnionHeaderSame(tables, header);
    ConcatRowsSame(tables, header);
  }

  /** The tables' rows, table by table. */
  function RowsOf(tables: seq<Table>): (r: seq<seq<seq<Cell>>>)
    ensures |r| == |tables|
  {
    if tables == [] then [] else RowsOf(tables[..|tables| - 1]) + [tables[|tables| - 1].rows]
  }

  lemma {:induction false} AddColumnsPresent(acc: seq<string>, h: seq<string>)
    requires forall c :: c in h ==> c in acc
    ensures AddColumns(acc, h) == acc
  {
    if h != [] {
      AddColumnsPresent(acc, h[..|h| - 1]);
    }
  }

  lemma {:induction false} UnionHeaderSame(tables: seq<Table>, header: seq<string>)
    requires tables != [] && NoDuplicates(header)
    requires forall n :: 0 <= n < |tables| ==> tables[n].header == header
    ensures UnionHeader(tables) == header
  {
    var init := tables[..|tables| - 1];
    if init == [] {
      AddColumnsShape([], header);
      assert UnionHeader(tables) == AddColumns([], header);
      AddColumnsFresh(header);
    } else {
      assert forall n :: 0 <= n < |init| ==> init[n] == tables[n];
      UnionHeaderSame(init, header);
      AddColumnsPresent(header, header);
    }
  }

  /** A header with distinct labels is taken as it is by an empty union. */
  lemma {:induction false} AddColumnsFresh(h: seq<string>)
    requires NoDuplicates(h)
    ensures AddColumns([], h) == h
  {
    if h != [] {
      var init := h[..|h| - 1];
      assert NoDuplicates(init) by {
        forall i, j | 0 <= i < j < |init|
          ensures init[i] != init[j]
        {
          assert init[i] == h[i] && init[j] == h[j];
        }
      }
      AddColumnsFresh(init);
      assert h[|h| - 1] !in init by {
        forall i | 0 <= i < |init|
          ensures init[i] != h[|h| - 1]
        {
          assert init[i] == h[i];
        }
      }
      assert h == init + [h[|h| - 1]];
    }
  }

  /** A well-formed table laid out under its own header of distinct labels is unchanged. */
  lemma AlignOwnHeader(t: Table)
    requires WellFormed(t) && NoDuplicates(t.header)
    ensures Align(t, t.header) == t.rows
  {
    var rows := Align(t, t.header);
    forall i | 0 <= i < |t.rows|
      ensures rows[i] == t.rows[i]
    {
      forall k | 0 <= k < |t.header|
        ensures rows[i][k] == t.rows[i][k]
      {
        assert FirstIndex(t.header, t.header[k]) == k;
      }
    }
  }

  lemma {:induction false} ConcatRowsSame(tables: seq<Table>, header: seq<string>)
    requires NoDuplicates(header)
    requires forall n :: 0 <= n < |tables| ==> tables[n].header == header && WellFormed(tables[n])
    ensures ConcatRows(tables, header) == Flatten(RowsOf(tables))
  {
    if tables != [] {
      var init := tables[..|tables| - 1];
      assert forall n :: 0 <= n < |init| ==> init[n] == tables[n];
      ConcatRowsSame(init, header);
      AlignOwnHeader(tables[|tables| - 1]);
      var rs := RowsOf(tables);
      assert rs[..|rs| - 1] == RowsOf(init);
    }
  }

  /** The loop of consolidate_all_tariffs: the tables of the processed entries in listing order, or the first read error. */
  function ReadTables(entries: seq<DirEntry>): Outcome<seq<Table>>
  {
    if entries == [] then Returned([])
    else
      var init := ReadTables(entries[..|entries| - 1]);
      var f := entries[|entries| - 1];
      if init.Raised? || !IsCsvFile(f) then init
      else
        match f.table
        case Raised(e) => Raised(e)
        case Returned(t) => Returned(init.value + [t])
  }

  /**
    Without a read error, the k-th table is the k-th processed entry's; with
    one, it is the error of a processed entry that all earlier ones were read
    before.
   */
  lemma {:induction false} ReadTablesShape(entries: seq<DirEntry>)
    ensures var r := ReadTables(entries);
      var sel := Selected(entries);
      && (r.Returned? ==> |r.value| == |sel| && forall k :: 0 <= k < |sel| ==> sel[k].table == Returned(r.value[k]))
      && (r.Raised? ==> exists k :: 0 <= k < |sel| && sel[k].table == Raised(r.error)
                                    && forall j :: 0 <= j < k ==> sel[j].table.Returned?)
  {
    if entries != [] {
      var init := entries[..|entries| - 1];
      ReadTablesShape(init);
      var selInit := Selected(init);
      var sel := Selected(entries);
      assert |selInit| <= |sel|;
      assert forall k :: 0 <= k < |selInit| ==> sel[k] == selInit[k];
      var r := ReadTables(entries);
      if ReadTables(init).Raised? {
        var k :| 0 <= k < |selInit| && selInit[k].table == Raised(ReadTables(init).error)
                 && forall j :: 0 <= j < k ==> selInit[j].table.Returned?;
        assert sel[k].table == Raised(r.error);
      } else if r.Raised? {
        var k := |selInit|;
        assert sel[k].table == Raised(r.error);
      }
    }
  }

  /** Once a read has raised, later entries change nothing. */
  lemma {:induction false} ReadTablesKeepsFailure(entries: seq<DirEntry>, n: nat)
    requires n <= |entries| && ReadTables(entries[..n]).Raised?
    ensures ReadTables(entries) == ReadTables(entries[..n])
    decreases |entries| - n
  {
    if n < |entries| {
      assert entries[..n + 1][..n] == entries[..n];
      ReadTablesKeepsFailure(entries, n + 1);
    } else {
      assert entries[..n] == entries;
    }
  }

  /**
    consolidate_all_tariffs: the tables read (or the exception a read raised,
    which ends the run before anything is written), and the consolidated file
    "aws-tariffs-<stamp>.csv" when there is at least one table (otherwise the
    "no price list found" warning is given and nothing is written).
   */
  method ConsolidateAllTariffs(entries: seq<DirEntry>, stamp: string)
    returns (tariffs: Outcome<seq<Table>>, output: Option<TableFile>)
    ensures tariffs == ReadTables(entries)
    ensures output.Some? <==> tariffs.Returned? && Selected(entries) != []
    ensures output.Some? ==> output.value == TableFile("aws-tariffs-" + stamp + ".csv", ConcatTables(tariffs.value))
  {
    var tables: seq<Table> := [];
    var i := 0;
    while i < |entries|
      invariant 0 <= i <= |entries|
      invariant ReadTables(entries[..i]) == Returned(tables)
    {
      var f := entries[i];
      assert entries[..i + 1][..i] == entries[..i];
      if IsCsvFile(f) {
        match f.table {
          case Raised(e) =>
            // read_csv raised: the exception propagates before the consolidated file is written
            ReadTablesKeepsFailure(entries, i + 1);
            return Raised(e), None;
          case Returned(t) =>
            tables := tables + [t];
        }
      }
      i := i + 1;
    }
    assert entries[..i] == entries;
    ReadTablesShape(entries);
    tariffs := Returned(tables);
    var consolidatedPath := "aws-tariffs-" + stamp + ".csv";
    if tables != [] {
      output := Some(TableFile(consolidatedPath, ConcatTables(tables)));
    } else {
      output := None;
    }
  }
}
