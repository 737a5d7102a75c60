/** The grouping converter of ConversorAux.py: every input file whose name
    carries a branch marker `- Suc<N> -` has its lines classified as in the
    flat converter; the orders are gathered per two-digit branch key across
    all files, and the error lines of all those files are concatenated. */
module ConversorAux {
  import opened Wrappers
  import opened Text
  import opened Paths
  import opened LineRules
  import opened Collections

  // ---------------------------------------------------------------------
  // Branch key: `re.search(r'- Suc(\d{1,2}) -', filename)`, then `zfill(2)`

  const MarkerOpen: string := "- Suc"
  const MarkerClose: string := " -"

  /** Reference meaning of the pattern: it matches at `p` with group `g`. */
  ghost predicate MarkerMatch(name: string, p: int, g: string) {
    && 0 <= p
    && 1 <= |g| <= 2 && AllDigits(g)
    && p + |MarkerOpen| + |g| + |MarkerClose| <= |name|
    && name[p..p + |MarkerOpen| + |g| + |MarkerClose|] == MarkerOpen + g + MarkerClose
  }

  /** `re.search` reports the match that starts leftmost. */
  ghost predicate LeftmostMarker(name: string, p: int, g: string) {
    && MarkerMatch(name, p, g)
    && forall p', g' :: MarkerMatch(name, p', g') ==> p <= p'
  }

  /** Tries the pattern at `p`: two digits first (the greedy `\d{1,2}`),
      then one. */
  function MarkerAt(name: string, p: nat): (r: Option<string>)
    ensures r.Some? ==> 1 <= |r.value| <= 2 && AllDigits(r.value)
  {
    if p + 5 <= |name| && name[p..p + 5] == MarkerOpen then
      if p + 9 <= |name| && IsDigit(name[p + 5]) && IsDigit(name[p + 6]) && name[p + 7..p + 9] == MarkerClose then
        Some(name[p + 5..p + 7])
      else if p + 8 <= |name| && IsDigit(name[p + 5]) && name[p + 6..p + 8] == MarkerClose then
        Some(name[p + 5..p + 6])
      else
        None
    else
      None
  }

  /** What a match at `p` says character by character. */
  lemma MarkerMatchParts(name: string, p: int, g: string)
    requires MarkerMatch(name, p, g)
    ensures name[p..p + 5] == MarkerOpen && name[p] == '-'
    ensures IsDigit(name[p + 5]) && g[0] == name[p + 5]
    ensures |g| == 2 ==> IsDigit(name[p + 6]) && g == name[p + 5..p + 7] && name[p + 7..p + 9] == MarkerClose
    ensures |g| == 1 ==> g == name[p + 5..p + 6] && name[p + 6..p + 8] == MarkerClose && !IsDigit(name[p + 6])
  {
    var n := |MarkerOpen| + |g| + |MarkerClose|;
    var w := name[p..p + n];
    assert w == MarkerOpen + g + MarkerClose;
    assert name[p..p + 5] == w[..5];
    assert g == w[5..5 + |g|];
    assert name[p + 5 + |g|..p + n] == w[5 + |g|..];
  }

  /** The attempt at `p` succeeds exactly when the pattern matches there,
      and then with the only group that can match there. */
  lemma MarkerAtSpec(name: string, p: nat)
    ensures MarkerAt(name, p).Some? ==> MarkerMatch(name, p, MarkerAt(name, p).value)
    ensures forall g :: MarkerMatch(name, p, g) ==> MarkerAt(name, p) == Some(g)
  {
    var r := MarkerAt(name, p);
    if r.Some? {
      var g := r.value;
      assert name[p..p + 5 + |g| + 2] == MarkerOpen + g + MarkerClose;
    }
    forall g | MarkerMatch(name, p, g) ensures r == Some(g) {
      MarkerMatchParts(name, p, g);
    }
  }

  /** The leftmost match at or after `p`, scanning forwards. */
  function FindMarker(name: string, p: nat): (r: Option<(nat, string)>)
    ensures r.Some? ==> 1 <= |r.value.1| <= 2 && AllDigits(r.value.1)
    decreases |name| - p
  {
    if p >= |name| then None
    else
      match MarkerAt(name, p)
      case Some(g) => Some((p, g))
      case None => FindMarker(name, p + 1)
  }

  /** The scan finds the leftmost match at or after `p`, or none when
      there is none. */
  lemma {:induction false} FindMarkerSpec(name: string, p: nat)
    ensures var r := FindMarker(name, p);
            && (r.Some? ==> p <= r.value.0 && MarkerMatch(name, r.value.0, r.value.1))
            && (forall p', g :: p <= p' && MarkerMatch(name, p', g) ==>
                  r.Some? && r.value.0 <= p' && (p' == r.value.0 ==> g == r.value.1))
    decreases |name| - p
  {
    MarkerAtSpec(name, p);
    if p < |name| && MarkerAt(name, p).None? {
      FindMarkerSpec(name, p + 1);
    }
  }

  /** `s.zfill(width)` for a string without a sign: '0's on the left up to
      `width` characters. */
  function ZFill(s: string, width: nat): (r: string)
    ensures |r| == if |s| < width then width else |s|
    ensures r[|r| - |s|..] == s
    ensures forall i :: 0 <= i < |r| - |s| ==> r[i] == '0'
  {
    if |s| >= width then s else seq(width - |s|, _ => '0') + s
  }

  /** `g.zfill(2)` for the one or two digits of a marker. */
  function PadKey(g: string): (key: string)
    requires 1 <= |g| <= 2 && AllDigits(g)
    ensures |key| == 2 && AllDigits(key)
    ensures |g| == 1 ==> key == ['0', g[0]]
    ensures |g| == 2 ==> key == g
  {
    ZFill(g, 2)
  }

  function ExtractSucursal(name: string): (r: Option<string>)
    ensures r.Some? ==> |r.value| == 2 && AllDigits(r.value)
  {
    match FindMarker(name, 0)
    case None => None
    case Some((_, g)) => Some(PadKey(g))
  }

  lemma ExtractSucursalNone(name: string)
    ensures ExtractSucursal(name).None? <==> forall p, g :: !MarkerMatch(name, p, g)
  {
    FindMarkerSpec(name, 0);
    var r := FindMarker(name, 0);
    if r.Some? {
      assert MarkerMatch(name, r.value.0, r.value.1);
    }
  }

  lemma ExtractSucursalLeftmost(name: string, p: int, g: string)
    requires LeftmostMarker(name, p, g)
    ensures ExtractSucursal(name) == Some(PadKey(g))
  {
    FindMarkerSpec(name, 0);
    var r := FindMarker(name, 0);
    assert r.Some? && r.value.0 <= p;
    assert MarkerMatch(name, r.value.0, r.value.1);
    assert g == r.value.1;
  }

  /** A name without any '-' carries no marker. */
  lemma NoDashNoBranch(name: string)
    requires '-' !in name
    ensures ExtractSucursal(name) == None
  {
    forall p, g | MarkerMatch(name, p, g) ensures false {
      MarkerMatchParts(name, p, g);
    }
    ExtractSucursalNone(name);
  }

  /** A marker preceded only by text without '-' is the one that counts,
      whatever follows it. */
  lemma FirstMarkerAfterPrefix(pre: string, g: string, rest: string)
    requires '-' !in pre && 1 <= |g| <= 2 && AllDigits(g)
    ensures ExtractSucursal(pre + MarkerOpen + g + MarkerClose + rest) == Some(PadKey(g))
  {
    var name := pre + MarkerOpen + g + MarkerClose + rest;
    var n := |MarkerOpen| + |g| + |MarkerClose|;
    assert name[|pre|..|pre| + n] == MarkerOpen + g + MarkerClose;
    assert MarkerMatch(name, |pre|, g);
    assert forall j :: 0 <= j < |pre| ==> name[j] == pre[j];
    forall p', g' | MarkerMatch(name, p', g') ensures |pre| <= p' {
      MarkerMatchParts(name, p', g');
    }
    ExtractSucursalLeftmost(name, |pre|, g);
  }

  /** A one-digit marker such as "- Suc7 -" after a dash-free prefix yields
      that digit padded with '0' ("07"), whatever follows. */
  lemma BranchOfOneDigit(pre: string, d: char, rest: string)
    requires '-' !in pre && IsDigit(d)
    ensures ExtractSucursal(pre + "- Suc" + [d] + " -" + rest) == Some(['0', d])
  {
    FirstMarkerAfterPrefix(pre, [d], rest);
  }

  /** "- Suc12 -" after a dash-free prefix yields "12", whatever follows. */
  lemma BranchOfSuc12(pre: string, rest: string)
    requires '-' !in pre
    ensures ExtractSucursal(pre + "- Suc12 -" + rest) == Some("12")
  {
    assert pre + "- Suc12 -" + rest == pre + MarkerOpen + "12" + MarkerClose + rest;
    FirstMarkerAfterPrefix(pre, "12", rest);
  }

  // ---------------------------------------------------------------------
  // One file: `process_file`

  method ProcessFile(path: string, lines: seq<string>)
    returns (data: map<Option<string>, seq<Order>>, errors: seq<string>)
    ensures errors == ErrorLines(lines)
    ensures Orders(lines) == [] ==> data == map[]
    ensures Orders(lines) != [] ==> data == map[ExtractSucursal(Basename(path)) := Orders(lines)]
  {
    ghost var key := ExtractSucursal(Basename(path));
    data, errors := map[], [];
    for i := 0 to |lines|
      invariant errors == ErrorLines(lines[..i])
      invariant Orders(lines[..i]) == [] ==> data == map[]
      invariant Orders(lines[..i]) != [] ==> data == map[key := Orders(lines[..i])]
    {
      LineStep(lines, i);
      var line := lines[i];
      if IsAccepted(line) {
        var order := ExtractOrder(line);
        var sucursal := ExtractSucursal(Basename(path));
        if sucursal !in data {
          data := data[sucursal := []];
        }
        AppendUnderKey(data, key, Orders(lines[..i]), order);
        data := data[sucursal := data[sucursal] + [order]];
      } else {
        errors := errors + [line];
      }
    }
    assert lines[..|lines|] == lines;
  }

  // ---------------------------------------------------------------------
  // All files: `group_orders_by_sucursal`

  /** An input file: its path and its lines as `readlines` returns them. */
  datatype InputFile = InputFile(path: string, lines: seq<string>)

  function BranchOf(f: InputFile): Option<string> {
    ExtractSucursal(Basename(f.path))
  }

  /** The branch dictionary after the files, in order: a file without a
      branch is skipped, any other creates its key if missing and appends
      its orders to it. */
  function GroupedOrders(files: seq<InputFile>): map<string, seq<Order>> {
    if files == [] then map[]
    else
      var m := GroupedOrders(files[..|files| - 1]);
      var f := files[|files| - 1];
      match BranchOf(f)
      case None => m
      case Some(k) => m[k := (if k in m then m[k] else []) + Orders(f.lines)]
  }

  /** The error lines of every file that was not skipped, file after file. */
  function CombinedErrors(files: seq<InputFile>): seq<string> {
    if files == [] then []
    else
      var f := files[|files| - 1];
      CombinedErrors(files[..|files| - 1]) + (if BranchOf(f).None? then [] else ErrorLines(f.lines))
  }

  /** Reference per-branch view: the orders of the files whose branch is
      `k`, file after file. */
  function RecordsFor(files: seq<InputFile>, k: string): seq<Order> {
    if files == [] then []
    else
      var f := files[|files| - 1];
      RecordsFor(files[..|files| - 1], k) + (if BranchOf(f) == Some(k) then Orders(f.lines) else [])
  }

  /** The branch keys the files' names yield. */
  function Branches(files: seq<InputFile>): set<string> {
    if files == [] then {}
    else
      var f := files[|files| - 1];
      Branches(files[..|files| - 1]) + (if BranchOf(f).Some? then {BranchOf(f).value} else {})
  }

  /** Every file that yields a branch has that branch among the keys. */
  lemma {:induction false} FileBranchIsKey(files: seq<InputFile>, i: nat)
    requires i < |files| && BranchOf(files[i]).Some?
    ensures BranchOf(files[i]).value in Branches(files)
  {
    var init := files[..|files| - 1];
    if i < |files| - 1 {
      assert init[i] == files[i];
      FileBranchIsKey(init, i);
    }
  }

  /** Every key comes from some file's name. */
  lemma {:induction false} KeyHasFile(files: seq<InputFile>, k: string)
    requires k in Branches(files)
    ensures exists i :: 0 <= i < |files| && BranchOf(files[i]) == Some(k)
  {
    var init := files[..|files| - 1];
    if BranchOf(files[|files| - 1]) != Some(k) {
      KeyHasFile(init, k);
      var i :| 0 <= i < |init| && BranchOf(init[i]) == Some(k);
      assert files[i] == init[i];
    }
  }

  /** The dictionary has a key exactly for the branches the files name (even
      for a branch whose files hold no order). */
  lemma {:induction false} GroupedKeys(files: seq<InputFile>)
    ensures GroupedOrders(files).Keys == Branches(files)
  {
    if files != [] {
      GroupedKeys(files[..|files| - 1]);
    }
  }

  /** Under each key, the in-order concatenation of the orders of the files
      of that branch; a branch no file names has no orders. */
  lemma {:induction false} GroupedValues(files: seq<InputFile>)
    ensures forall k :: k in GroupedOrders(files) ==> GroupedOrders(files)[k] == RecordsFor(files, k)
    ensures forall k :: k !in GroupedOrders(files) ==> RecordsFor(files, k) == []
  {
    if files != [] {
      GroupedValues(files[..|files| - 1]);
    }
  }

  /** `group_orders_by_sucursal`: loops over the files, skips the ones whose
      name yields no branch, runs `process_file` on the others, extends the
      combined error list and the branch's order list. */
  method GroupOrdersBySucursal(files: seq<InputFile>)
    returns (data: map<string, seq<Order>>, errorsCombined: seq<string>)
    ensures data == GroupedOrders(files)
    ensures errorsCombined == CombinedErrors(files)
    ensures data.Keys == Branches(files)
    ensures forall k :: k in data ==> data[k] == RecordsFor(files, k)
  {
    data, errorsCombined := map[], [];
    for i := 0 to |files|
      invariant data == GroupedOrders(files[..i])
      invariant errorsCombined == CombinedErrors(files[..i])
    {
      ghost var done := files[..i + 1];
      assert done[..|done| - 1] == files[..i];
      var f := files[i];
      assert done[|done| - 1] == f;
      var sucursal := ExtractSucursal(Basename(f.path));
      if sucursal.None? {
        // the source reports the file to the operator and goes on
        continue;
      }
      var inFile, errorLines := ProcessFile(f.path, f.lines);
      ghost var added := if sucursal in inFile then inFile[sucursal] else [];
      assert added == Orders(f.lines);
      errorsCombined := errorsCombined + errorLines;
      var key := sucursal.value;
      ghost var m := data;
      ghost var before := if key in m then m[key] else [];
      if key !in data {
        data := data[key := []];
        UpdateTwice(m, key, [], before + added);
      }
      assert data[key] == before;
      data := data[key := data[key] + (if sucursal in inFile then inFile[sucursal] else [])];
      assert data == m[key := before + Orders(f.lines)];
    }
    assert files[..|files|] == files;
    GroupedKeys(files);
    GroupedValues(files);
  }

  // ---------------------------------------------------------------------
  // Counting: every line of a processed file is one order or one error line

  /** The number of orders over all keys of a branch dictionary. */
  ghost function TotalOrders(m: map<string, seq<Order>>): nat
    decreases m.Keys
  {
    if m == map[] then 0
    else
      var k :| k in m;
      |m[k]| + TotalOrders(m - {k})
  }

  lemma {:induction false} TotalOrdersRemove(m: map<string, seq<Order>>, k: string)
    requires k in m
    ensures TotalOrders(m) == |m[k]| + TotalOrders(m - {k})
    decreases m.Keys
  {
    var j :| j in m && TotalOrders(m) == |m[j]| + TotalOrders(m - {j});
    if j != k {
      TotalOrdersRemove(m - {j}, k);
      TotalOrdersRemove(m - {k}, j);
      assert m - {j} - {k} == m - {k} - {j};
    }
  }

  /** Appending `xs` under key `k` (creating it if needed) adds `|xs|`. */
  lemma TotalOrdersAppend(m: map<string, seq<Order>>, k: string, xs: seq<Order>)
    ensures TotalOrders(m[k := (if k in m then m[k] else []) + xs]) == TotalOrders(m) + |xs|
  {
    var m' := m[k := (if k in m then m[k] else []) + xs];
    TotalOrdersRemove(m', k);
    assert m' - {k} == m - {k};
    if k in m {
      TotalOrdersRemove(m, k);
    } else {
      assert m - {k} == m;
    }
  }

  /** The lines of the files that were not skipped. */
  function ProcessedLineCount(files: seq<InputFile>): nat {
    if files == [] then 0
    else
      var f := files[|files| - 1];
      ProcessedLineCount(files[..|files| - 1]) + (if BranchOf(f).None? then 0 else |f.lines|)
  }

  /** Over all branch keys, the orders plus the combined error lines are
      exactly the lines of the files that were not skipped. */
  lemma {:induction false} OrdersAndErrorsCoverLines(files: seq<InputFile>)
    ensures TotalOrders(GroupedOrders(files)) + |CombinedErrors(files)| == ProcessedLineCount(files)
  {
    if files != [] {
      var init := files[..|files| - 1];
      var f := files[|files| - 1];
      OrdersAndErrorsCoverLines(init);
      match BranchOf(f)
      case None =>
      case Some(k) =>
        TotalOrdersAppend(GroupedOrders(init), k, Orders(f.lines));
        PartitionCount(f.lines);
    }
  }

  lemma {:induction false} CombinedErrorsAppend(a: seq<InputFile>, b: seq<InputFile>)
    ensures CombinedErrors(a + b) == CombinedErrors(a) + CombinedErrors(b)
  {
    if b == [] {
      assert a + b == a;
    } else {
      var b', f := b[..|b| - 1], b[|b| - 1];
      var tail := if BranchOf(f).None? then [] else ErrorLines(f.lines);
      AppendLast(a, b);
      CombinedErrorsAppend(a, b');
      AppendAssoc(CombinedErrors(a), CombinedErrors(b'), tail);
      calc {
        CombinedErrors(a + b);
        CombinedErrors(a + b') + tail;
        (CombinedErrors(a) + CombinedErrors(b')) + tail;
        CombinedErrors(a) + (CombinedErrors(b') + tail);
        CombinedErrors(a) + CombinedErrors(b);
      }
    }
  }

  lemma {:induction false} RecordsForAppend(a: seq<InputFile>, b: seq<InputFile>, k: string)
    ensures RecordsFor(a + b, k) == RecordsFor(a, k) + RecordsFor(b, k)
  {
    if b == [] {
      assert a + b == a;
    } else {
      var b', f := b[..|b| - 1], b[|b| - 1];
      var tail := if BranchOf(f) == Some(k) then Orders(f.lines) else [];
      AppendLast(a, b);
      RecordsForAppend(a, b', k);
      AppendAssoc(RecordsFor(a, k), RecordsFor(b', k), tail);
      calc {
        RecordsFor(a + b, k);
        RecordsFor(a + b', k) + tail;
        (RecordsFor(a, k) + RecordsFor(b', k)) + tail;
        RecordsFor(a, k) + (RecordsFor(b', k) + tail);
        RecordsFor(a, k) + RecordsFor(b, k);
      }
    }
  }

  lemma {:induction false} BranchesAppend(a: seq<InputFile>, b: seq<InputFile>)
    ensures Branches(a + b) == Branches(a) + Branches(b)
  {
    if b == [] {
      assert a + b == a;
    } else {
      AppendLast(a, b);
      BranchesAppend(a, b[..|b| - 1]);
    }
  }

  /** Removing the file at `i` from the batch, in the three views. */
  lemma SkipOneErrors(files: seq<InputFile>, i: nat)
    requires i < |files| && BranchOf(files[i]).None?
    ensures CombinedErrors(files) == CombinedErrors(files[..i] + files[i + 1..])
  {
    var before, skipped, after := files[..i], [files[i]], files[i + 1..];
    SplitAround(files, i);
    assert skipped[..0] == [];
    assert CombinedErrors(skipped) == [];
    CombinedErrorsAppend(before + skipped, after);
    CombinedErrorsAppend(before, skipped);
    CombinedErrorsAppend(before, after);
  }

  lemma SkipOneBranches(files: seq<InputFile>, i: nat)
    requires i < |files| && BranchOf(files[i]).None?
    ensures Branches(files) == Branches(files[..i] + files[i + 1..])
  {
    var before, skipped, after := files[..i], [files[i]], files[i + 1..];
    SplitAround(files, i);
    assert skipped[..0] == [];
    assert Branches(skipped) == {};
    BranchesAppend(before + skipped, after);
    BranchesAppend(before, skipped);
    BranchesAppend(before, after);
  }

  lemma SkipOneRecords(files: seq<InputFile>, i: nat, k: string)
    requires i < |files| && BranchOf(files[i]).None?
    ensures RecordsFor(files, k) == RecordsFor(files[..i] + files[i + 1..], k)
  {
    var before, skipped, after := files[..i], [files[i]], files[i + 1..];
    SplitAround(files, i);
    assert skipped[..0] == [];
    RecordsForAppend(before + skipped, after, k);
    RecordsForAppend(before, skipped, k);
    RecordsForAppend(before, after, k);
  }

  /** A file whose name yields no branch contributes nothing: the results
      are those of the batch without it. */
  lemma SkippedFileContributesNothing(files: seq<InputFile>, i: nat)
    requires i < |files| && BranchOf(files[i]).None?
    ensures var rest := files[..i] + files[i + 1..];
            && GroupedOrders(files) == GroupedOrders(rest)
            && CombinedErrors(files) == CombinedErrors(rest)
  {
    var rest := files[..i] + files[i + 1..];
    SkipOneErrors(files, i);
    SkipOneBranches(files, i);
    GroupedKeys(files);
    GroupedKeys(rest);
    GroupedValues(files);
    GroupedValues(rest);
    var m, m' := GroupedOrders(files), GroupedOrders(rest);
    forall k | k in m ensures m[k] == m'[k] {
      SkipOneRecords(files, i, k);
    }
  }

  // ---------------------------------------------------------------------
  // Output: `save_orders_by_sucursal`

  /** `f"pedidos_sucursal_{sucursal}.txt"` */
  function OrdersFileName(key: string): (name: string)
    ensures '/' !in key ==> '/' !in name
    ensures |name| == |key| + 21 && name[17..|name| - 4] == key
  {
    "pedidos_sucursal_" + key + ".txt"
  }

  /** Different branches are written to different files. */
  lemma OrdersPathInjective(folder: string, k1: string, k2: string)
    requires JoinPath(folder, OrdersFileName(k1)) == JoinPath(folder, OrdersFileName(k2))
    ensures k1 == k2
  {
    var n1, n2 := OrdersFileName(k1), OrdersFileName(k2);
    var sep := if folder == [] || folder[|folder| - 1] == '/' then folder else folder + "/";
    assert JoinPath(folder, n1) == sep + n1 && JoinPath(folder, n2) == sep + n2;
    assert n1 == (sep + n1)[|sep|..];
    assert n1 == n2;
    assert k1 == n1[17..|n1| - 4];
    assert k2 == n2[17..|n2| - 4];
  }

  /** The files `save_orders_by_sucursal` writes: path to lines, one file per
      branch, each holding that branch's orders as `barcode;description;quantity\n`. */
  function SaveOrdersBySucursal(data: map<string, seq<Order>>, folder: string): (written: map<string, seq<string>>)
    ensures forall k :: k in data ==>
              JoinPath(folder, OrdersFileName(k)) in written
              && written[JoinPath(folder, OrdersFileName(k))] == FormatAll(data[k])
    ensures forall path :: path in written ==>
              exists k :: k in data && path == JoinPath(folder, OrdersFileName(k))
  {
    forall k1, k2 | JoinPath(folder, OrdersFileName(k1)) == JoinPath(folder, OrdersFileName(k2))
      ensures k1 == k2
    {
      OrdersPathInjective(folder, k1, k2);
    }
    map k | k in data :: JoinPath(folder, OrdersFileName(k)) := FormatAll(data[k])
  }
}
