/** The line classifier and record extractor shared by both converters
    (`convert_file` in Conversor.py and `process_file` in ConversorAux.py
    run the same code on every line).

    A raw line, terminator included, is accepted when its first 13
    characters hold at least 5 digits and at most 7 '0' characters; an
    accepted line yields an order (barcode, description, quantity), a
    rejected one is kept verbatim as an error line. */
module LineRules {
  import opened Wrappers
  import opened Text
  import opened Collections

  const BarcodeWidth: nat := 13
  const MinBarcodeDigits: nat := 5
  const MaxBarcodeZeros: nat := 7

  /** What the quantity field says when the line has no digit at all. */
  const NotFoundText: string := "No se encontró cantidad"

  /** `line[:13]`: the barcode candidate, shorter when the line is. */
  function BarcodeField(line: string): (r: string)
    ensures |r| == if |line| < BarcodeWidth then |line| else BarcodeWidth
    ensures r == line[..|r|]
  {
    if |line| <= BarcodeWidth then line else line[..BarcodeWidth]
  }

  /** The classifier. A line shorter than five characters cannot hold five
      digits, and an accepted line has a digit among its first 13. */
  function IsAccepted(line: string): (ok: bool)
    ensures |line| < MinBarcodeDigits ==> !ok
    ensures ok ==> !NoDigits(BarcodeField(line))
  {
    var barcode := BarcodeField(line);
    CountDigits(barcode) >= MinBarcodeDigits && CountChar(barcode, '0') <= MaxBarcodeZeros
  }

  /** Only the first 13 characters decide: whatever follows them is ignored. */
  lemma VerdictIgnoresTail(line: string, tail: string)
    requires |line| >= BarcodeWidth
    ensures IsAccepted(line + tail) == IsAccepted(line)
  {
    assert BarcodeField(line + tail) == BarcodeField(line);
  }

  // ---------------------------------------------------------------------
  // The quantity: `re.search(r'\d+(?=[^\d]*$)', line)`

  /** Reference meaning of the pattern: `line[p..q]` is a non-empty run of
      digits and no digit follows it. (`$` also matches before a final
      newline, but that newline is a non-digit, so it changes nothing.) */
  ghost predicate QuantityMatch(line: string, p: int, q: int) {
    && 0 <= p < q <= |line|
    && (forall i :: p <= i < q ==> IsDigit(line[i]))
    && (forall i :: q <= i < |line| ==> !IsDigit(line[i]))
  }

  /** `re.search` reports the match that starts leftmost. */
  ghost predicate LeftmostQuantityMatch(line: string, p: int, q: int) {
    && QuantityMatch(line, p, q)
    && forall p', q' :: QuantityMatch(line, p', q') ==> p <= p'
  }

  datatype Span = Span(start: nat, end: nat)

  function SkipNonDigitsBack(line: string, j: nat): (e: nat)
    requires j <= |line|
    ensures e <= j
    ensures forall i :: e <= i < j ==> !IsDigit(line[i])
    ensures e > 0 ==> IsDigit(line[e - 1])
  {
    if j == 0 || IsDigit(line[j - 1]) then j else SkipNonDigitsBack(line, j - 1)
  }

  function SkipDigitsBack(line: string, j: nat): (b: nat)
    requires j <= |line|
    ensures b <= j
    ensures forall i :: b <= i < j ==> IsDigit(line[i])
    ensures b > 0 ==> !IsDigit(line[b - 1])
  {
    if j == 0 || !IsDigit(line[j - 1]) then j else SkipDigitsBack(line, j - 1)
  }

  /** Scans back from the end: past the trailing non-digits, then across the
      last run of digits. The result is exactly the regex's match. */
  function LastDigitRun(line: string): (r: Option<Span>)
    ensures r.None? <==> NoDigits(line)
    ensures r.Some? ==> LeftmostQuantityMatch(line, r.value.start, r.value.end)
    ensures r.Some? ==> forall p, q :: QuantityMatch(line, p, q) ==> q == r.value.end
  {
    var e := SkipNonDigitsBack(line, |line|);
    if e == 0 then None
    else
      var b := SkipDigitsBack(line, e - 1);
      assert QuantityMatch(line, b, e);
      assert forall p, q :: QuantityMatch(line, p, q) ==> b <= p && q == e by {
        forall p, q | QuantityMatch(line, p, q) ensures b <= p && q == e {
          assert IsDigit(line[q - 1]) && IsDigit(line[e - 1]);
        }
      }
      Some(Span(b, e))
  }

  datatype Quantity = Count(n: nat) | NotFound

  /** `str(quantity)` */
  function QuantityText(q: Quantity): (t: string)
    ensures 1 <= |t|
    ensures ';' !in t && '\n' !in t
  {
    match q
    case Count(n) => NatToString(n)
    case NotFound => NotFoundText
  }

  /** The quantity of a line: the last run of digits read as a number, 1
      when a ',' sits at or after index `len(line[:13]) + len(run)`, and the
      not-found marker when the line has no digit. */
  function QuantityOf(line: string): (q: Quantity)
    ensures q.NotFound? <==> NoDigits(line)
  {
    match LastDigitRun(line)
    case None => NotFound
    case Some(run) =>
      var digits := line[run.start..run.end];
      if Contains(Drop(line, |BarcodeField(line)| + |digits|), ',') then Count(1)
      else Count(DecimalValue(digits))
  }

  /** The quantity rule stated against the regex's own match `line[p..q]`. */
  lemma QuantityRule(line: string, p: int, q: int)
    requires LeftmostQuantityMatch(line, p, q)
    ensures QuantityOf(line) ==
              if exists i :: |BarcodeField(line)| + (q - p) <= i < |line| && line[i] == ','
              then Count(1)
              else Count(DecimalValue(line[p..q]))
  {
    assert IsDigit(line[p]);
    var run := LastDigitRun(line).value;
    assert run.start == p && run.end == q;
    var k := |BarcodeField(line)| + (q - p);
    var rest := Drop(line, k);
    if Contains(rest, ',') {
      var j :| 0 <= j < |rest| && rest[j] == ',';
      assert line[k + j] == ',';
    }
  }

  /** An accepted line always has a quantity: its first 13 characters alone
      hold five digits, so the not-found marker never reaches an order. */
  lemma {:induction false} AcceptedHasQuantity(line: string)
    requires IsAccepted(line)
    ensures QuantityOf(line).Count?
  {
    var barcode := BarcodeField(line);
    assert !NoDigits(barcode);
    var i :| 0 <= i < |barcode| && IsDigit(barcode[i]);
    assert IsDigit(line[i]);
  }

  // ---------------------------------------------------------------------
  // The description: `re.sub(r'\d', '', line[13:-len(str(quantity))]).strip()`

  /** `line[13:-len(str(q))]` with Python's clamping of both ends. */
  function DescriptionSlice(line: string, q: Quantity): (r: string)
    ensures |line| <= BarcodeWidth + |QuantityText(q)| ==> r == []
    ensures |line| > BarcodeWidth + |QuantityText(q)| ==>
              r == line[BarcodeWidth..|line| - |QuantityText(q)|]
  {
    var len := |QuantityText(q)|;
    var start := |BarcodeField(line)|;
    var end := if |line| >= len then |line| - len else 0;
    if start < end then line[start..end] else []
  }

  /** The description holds no digit and starts and ends with a non-space;
      it is empty when the slice end falls at or before index 13. */
  function DescriptionOf(line: string, q: Quantity): (d: string)
    ensures NoDigits(d)
    ensures d == [] || (!IsSpace(d[0]) && !IsSpace(d[|d| - 1]))
    ensures |line| <= BarcodeWidth + |QuantityText(q)| ==> d == []
    ensures |d| <= |DescriptionSlice(line, q)|
  {
    var slice := DescriptionSlice(line, q);
    var kept := RemoveDigits(slice);
    assert |kept| <= |slice|;
    StripKeepsNoDigits(kept);
    Strip(kept)
  }

  /** The description is what stripping leaves of the slice without its
      digits: the infix of it that starts at its first non-whitespace
      character, with only whitespace after it. */
  lemma DescriptionSpec(line: string, q: Quantity)
    ensures StrippedFrom(DescriptionOf(line, q), RemoveDigits(DescriptionSlice(line, q)))
  {
    var kept := RemoveDigits(DescriptionSlice(line, q));
    assert DescriptionOf(line, q) == Strip(kept);
    StripSpec(kept);
  }

  // ---------------------------------------------------------------------
  // Orders and their text form

  datatype Order = Order(barcode: string, description: string, quantity: Quantity)

  /** The order extracted from a line (run on accepted lines). */
  function ExtractOrder(line: string): (o: Order)
    ensures NoDigits(o.description)
    ensures o.barcode == [] || (!IsSpace(o.barcode[0]) && !IsSpace(o.barcode[|o.barcode| - 1]))
    ensures |o.barcode| <= BarcodeWidth
  {
    var q := QuantityOf(line);
    Order(Strip(BarcodeField(line)), DescriptionOf(line, q), q)
  }

  /** `f"{barcode};{description};{quantity}\n"`: no ';' is escaped. */
  function FormatOrder(o: Order): (s: string)
    ensures |s| > 0 && s[|s| - 1] == '\n'
  {
    o.barcode + ";" + o.description + ";" + QuantityText(o.quantity) + "\n"
  }

  /** The line holds the fields' own ';' characters and exactly two more:
      the separators, with nothing escaped. */
  lemma FormatOrderSeparators(o: Order)
    ensures CountChar(FormatOrder(o), ';') == CountChar(o.barcode, ';') + CountChar(o.description, ';') + 2
  {
    var qt := QuantityText(o.quantity);
    var head := o.barcode + [';'] + o.description;
    assert FormatOrder(o) == head + [';'] + qt + ['\n'];
    CountCharAppend(o.barcode, [';'], ';');
    CountCharAppend(o.barcode + [';'], o.description, ';');
    CountCharAppend(head, [';'], ';');
    CountCharAppend(head + [';'], qt, ';');
    CountCharAppend(head + [';'] + qt, ['\n'], ';');
  }

  /** When neither the barcode nor the description holds a ';', the line
      reads back as exactly its three fields. */
  lemma FormatOrderFields(o: Order)
    requires ';' !in o.barcode && ';' !in o.description
    ensures var s := FormatOrder(o);
            && |s| > 0 && s[|s| - 1] == '\n'
            && Split(s[..|s| - 1], ';') == [o.barcode, o.description, QuantityText(o.quantity)]
  {
    var s := FormatOrder(o);
    var qt := QuantityText(o.quantity);
    var head := o.barcode + [';'];
    var body := head + o.description + [';'] + qt;
    assert s == body + ['\n'];
    TakeAppend(body, ['\n']);
    AppendAssoc(head, o.description, [';']);
    AppendAssoc(head, o.description + [';'], qt);
    PrependDisplays(o.barcode, o.barcode, o.description, qt);
    SplitAtFirstSep(o.barcode, o.description + [';'] + qt, ';');
    SplitAtFirstSep(o.description, qt, ';');
    SplitWithoutSep(qt, ';');
  }

  /** A ';' inside a description is written as is, so the line reads back
      as four fields, the description cut in two. */
  lemma {:induction false} SemicolonNotEscaped(barcode: string, a: string, b: string, q: Quantity)
    requires ';' !in barcode && ';' !in a && ';' !in b
    ensures var s := FormatOrder(Order(barcode, a + [';'] + b, q));
            Split(s[..|s| - 1], ';') == [barcode, a, b, QuantityText(q)]
  {
    var desc := a + [';'] + b;
    var s := FormatOrder(Order(barcode, desc, q));
    var qt := QuantityText(q);
    var head := barcode + [';'];
    var body := head + desc + [';'] + qt;
    assert s == body + ['\n'];
    TakeAppend(body, ['\n']);
    AppendAssoc(head, desc, [';']);
    AppendAssoc(head, desc + [';'], qt);
    AppendAssoc(a + [';'], b, [';']);
    AppendAssoc(a + [';'], b + [';'], qt);
    var tail := b + [';'] + qt;
    var mid := a + [';'] + tail;
    assert body == head + mid;
    PrependDisplays(barcode, a, b, qt);
    SplitWithoutSep(qt, ';');
    SplitAtFirstSep(b, qt, ';');
    SplitAtFirstSep(a, tail, ';');
    SplitAtFirstSep(barcode, mid, ';');
  }

  // ---------------------------------------------------------------------
  // A whole file: the orders of the accepted lines and the rejected lines

  /** The orders of the accepted lines, in line order. */
  function Orders(lines: seq<string>): (r: seq<Order>)
    ensures |r| <= |lines|
  {
    if lines == [] then []
    else
      var last := lines[|lines| - 1];
      Orders(lines[..|lines| - 1]) + (if IsAccepted(last) then [ExtractOrder(last)] else [])
  }

  /** The rejected lines, verbatim and in line order. */
  function ErrorLines(lines: seq<string>): (r: seq<string>)
    ensures |r| <= |lines|
    ensures forall e :: e in r ==> e in lines && !IsAccepted(e)
  {
    if lines == [] then []
    else
      var last := lines[|lines| - 1];
      ErrorLines(lines[..|lines| - 1]) + (if IsAccepted(last) then [] else [last])
  }

  /** The text lines of a sequence of orders. */
  function FormatAll(orders: seq<Order>): (r: seq<string>)
    ensures |r| == |orders|
    ensures forall i :: 0 <= i < |r| ==> r[i] == FormatOrder(orders[i])
  {
    if orders == [] then []
    else FormatAll(orders[..|orders| - 1]) + [FormatOrder(orders[|orders| - 1])]
  }

  lemma FormatAllAppend(orders: seq<Order>, o: Order)
    ensures FormatAll(orders + [o]) == FormatAll(orders) + [FormatOrder(o)]
  {
    assert (orders + [o])[..|orders|] == orders;
  }

  lemma {:induction false} OrdersAppend(a: seq<string>, b: seq<string>)
    ensures Orders(a + b) == Orders(a) + Orders(b)
  {
    if b != [] {
      var b' := b[..|b| - 1];
      assert (a + b)[..|a + b| - 1] == a + b';
      OrdersAppend(a, b');
    } else {
      assert a + b == a;
    }
  }

  lemma {:induction false} ErrorLinesAppend(a: seq<string>, b: seq<string>)
    ensures ErrorLines(a + b) == ErrorLines(a) + ErrorLines(b)
  {
    if b != [] {
      var b' := b[..|b| - 1];
      assert (a + b)[..|a + b| - 1] == a + b';
      ErrorLinesAppend(a, b');
    } else {
      assert a + b == a;
    }
  }

  /** One more line extends exactly one of the two outputs. */
  lemma LineStep(lines: seq<string>, i: nat)
    requires i < |lines|
    ensures IsAccepted(lines[i]) ==>
              && Orders(lines[..i + 1]) == Orders(lines[..i]) + [ExtractOrder(lines[i])]
              && ErrorLines(lines[..i + 1]) == ErrorLines(lines[..i])
    ensures !IsAccepted(lines[i]) ==>
              && Orders(lines[..i + 1]) == Orders(lines[..i])
              && ErrorLines(lines[..i + 1]) == ErrorLines(lines[..i]) + [lines[i]]
  {
    var done := lines[..i + 1];
    assert done[..|done| - 1] == lines[..i];
    assert Orders(done) == Orders(lines[..i]) + (if IsAccepted(lines[i]) then [ExtractOrder(lines[i])] else []);
    assert ErrorLines(done) == ErrorLines(lines[..i]) + (if IsAccepted(lines[i]) then [] else [lines[i]]);
  }

  /** Every line yields one order or one error line: the two outputs
      together are exactly as long as the input. */
  lemma {:induction false} PartitionCount(lines: seq<string>)
    ensures |Orders(lines)| + |ErrorLines(lines)| == |lines|
  {
    if lines != [] {
      PartitionCount(lines[..|lines| - 1]);
    }
  }

  /** Line `i` goes to exactly one output, at the position given by how many
      lines before it went there: an accepted line becomes the next order and
      adds no error line; a rejected line becomes the next error line,
      unchanged, and adds no order. */
  lemma LineRouting(lines: seq<string>, i: nat)
    requires i < |lines|
    ensures var before, line := lines[..i], lines[i];
            if IsAccepted(line) then
              && |Orders(before)| < |Orders(lines)|
              && Orders(lines)[|Orders(before)|] == ExtractOrder(line)
              && ErrorLines(lines[..i + 1]) == ErrorLines(before)
            else
              && |ErrorLines(before)| < |ErrorLines(lines)|
              && ErrorLines(lines)[|ErrorLines(before)|] == line
              && Orders(lines[..i + 1]) == Orders(before)
  {
    var before, after := lines[..i], lines[i + 1..];
    assert lines[..i + 1] == before + [lines[i]];
    assert lines == before + [lines[i]] + after;
    OrdersAppend(before + [lines[i]], after);
    OrdersAppend(before, [lines[i]]);
    ErrorLinesAppend(before + [lines[i]], after);
    ErrorLinesAppend(before, [lines[i]]);
    assert [lines[i]][..0] == [];
  }
}
