/**
 * `parse_psnr_file` in psnrstats.py: recognise the log lines
 * `index: noisy clamped psnr` with the anchored pattern
 * `\s*(\d+):\s+(\d+\.\d+)\s+(\d+\.\d+)\s+(\d+\.\d+)`, and collect the
 * index and the three numbers of every matching line, in file order.
 */
module PsnrParser {
  import opened Wrappers
  import opened Digits

  // ---------------------------------------------------------------------
  // Character classes and maximal runs
  // ---------------------------------------------------------------------

  /** What `\s` accepts in a `str` pattern: the characters `str.isspace()` accepts. */
  predicate IsSpace(c: char)
  {
    var n := c as int;
    (9 <= n <= 13) || (28 <= n <= 32) || n == 0x85 || n == 0xA0 || n == 0x1680 ||
    (0x2000 <= n <= 0x200A) || n == 0x2028 || n == 0x2029 || n == 0x202F || n == 0x205F || n == 0x3000
  }

  /** The two repeated classes of the pattern, `\s` and `\d`. */
  datatype Class = Space | Digit

  predicate In(k: Class, c: char)
  {
    match k
    case Space => IsSpace(c)
    case Digit => IsDigit(c)
  }

  predicate All(k: Class, s: string)
  {
    forall i :: 0 <= i < |s| ==> In(k, s[i])
  }

  /** `s` is empty or does not start with a character of class `k`. */
  predicate StopsRun(k: Class, s: string)
  {
    s == [] || !In(k, s[0])
  }

  /**
   * The longest prefix of `s` made of class `k`, and the text after it: a
   * greedy `\s*` or `\d*`.
   */
  function Munch(k: Class, s: string): (r: (string, string))
    ensures r.0 + r.1 == s
    ensures All(k, r.0) && StopsRun(k, r.1)
  {
    if s == [] || !In(k, s[0]) then ([], s)
    else
      var t := Munch(k, s[1..]);
      assert [s[0]] + t.0 + t.1 == s;
      ([s[0]] + t.0, t.1)
  }

  /** A split into a run of class `k` and a text that stops the run is the one `Munch` finds. */
  lemma {:induction false} MunchUnique(k: Class, a: string, b: string)
    requires All(k, a) && StopsRun(k, b)
    ensures Munch(k, a + b) == (a, b)
  {
    var s := a + b;
    if a == [] {
      assert s == b;
    } else {
      assert s[0] == a[0] && In(k, s[0]);
      assert s[1..] == a[1..] + b;
      MunchUnique(k, a[1..], b);
      assert [a[0]] + a[1..] == a;
    }
  }

  // ---------------------------------------------------------------------
  // Numbers of the form `\d+\.\d+`
  // ---------------------------------------------------------------------

  /** The two digit groups of a number `whole.frac`. */
  datatype Decimal = Decimal(whole: string, frac: string)
  {
    predicate WellFormed()
    {
      |whole| >= 1 && |frac| >= 1 && AllDigits(whole) && AllDigits(frac)
    }

    /** The number's text followed by `tail`. */
    function Then(tail: string): string
    {
      whole + (['.'] + (frac + tail))
    }

    /** What `float(...)` reads from the text, as an exact real. */
    function Number(): (x: real)
      requires WellFormed()
    {
      Value(whole) as real + Value(frac) as real / Pow10(|frac|) as real
    }
  }

  /** `\d+\.\d+` at the start of `s`: the number and the text after it. */
  function MatchDecimal(s: string): (r: Option<(Decimal, string)>)
    ensures r.Some? ==> r.value.0.WellFormed() && s == r.value.0.Then(r.value.1)
    ensures r.Some? ==> StopsRun(Digit, r.value.1)
  {
    var (w, t) := Munch(Digit, s);
    if w == [] || t == [] || t[0] != '.' then None
    else
      var (f, u) := Munch(Digit, t[1..]);
      if f == [] then None
      else
        assert t == ['.'] + (f + u);
        Some((Decimal(w, f), u))
  }

  lemma DigitRunStopsAtDot(rest: string)
    ensures StopsRun(Digit, ['.'] + rest)
  {
  }

  /** A well-formed number is read back whole whenever the text after it is no digit. */
  lemma MatchDecimalComplete(d: Decimal, tail: string)
    requires d.WellFormed() && StopsRun(Digit, tail)
    ensures MatchDecimal(d.Then(tail)) == Some((d, tail))
  {
    var after := ['.'] + (d.frac + tail);
    DigitRunStopsAtDot(d.frac + tail);
    MunchUnique(Digit, d.whole, after);
    assert after[1..] == d.frac + tail;
    MunchUnique(Digit, d.frac, tail);
  }

  lemma FractionBelowOne(f: real, p: real)
    requires 0.0 <= f < p
    ensures 0.0 <= f / p < 1.0
  {
  }

  /** The integral and fractional parts: the value lies in `[whole, whole + 1)`. */
  lemma NumberBounds(d: Decimal)
    requires d.WellFormed()
    ensures Value(d.whole) as real <= d.Number() < Value(d.whole) as real + 1.0
  {
    ValueBelowPow10(d.frac);
    FractionBelowOne(Value(d.frac) as real, Pow10(|d.frac|) as real);
  }

  // ---------------------------------------------------------------------
  // Whole lines
  // ---------------------------------------------------------------------

  /** The four groups of a matching line, as text. */
  datatype Row = Row(index: string, noisy: Decimal, clamped: Decimal, psnr: Decimal)
  {
    predicate WellFormed()
    {
      |index| >= 1 && AllDigits(index) && noisy.WellFormed() && clamped.WellFormed() && psnr.WellFormed()
    }
  }

  /** The whitespace runs of a matching line: leading `\s*` and the three `\s+` gaps. */
  datatype Layout = Layout(lead: string, gap1: string, gap2: string, gap3: string)
  {
    predicate WellFormed()
    {
      All(Space, lead) && |gap1| >= 1 && All(Space, gap1) &&
      |gap2| >= 1 && All(Space, gap2) && |gap3| >= 1 && All(Space, gap3)
    }
  }

  /** The text a layout and a row spell, followed by the unmatched remainder `rest`. */
  function LineText(lay: Layout, row: Row, rest: string): string
  {
    lay.lead + (row.index + ([':'] + (lay.gap1 + row.noisy.Then(lay.gap2 + row.clamped.Then(lay.gap3 + row.psnr.Then(rest))))))
  }

  /** A successful `re.match`: the groups, the whitespace around them and the text left over. */
  datatype Match = Match(row: Row, layout: Layout, rest: string)

  /** `\s*(\d+):` at the start of `line`: the leading blanks, the index and the text after the colon. */
  function MatchHead(line: string): (r: Option<(string, string, string)>)
    ensures r.Some? ==> All(Space, r.value.0) && |r.value.1| >= 1 && AllDigits(r.value.1)
    ensures r.Some? ==> line == r.value.0 + (r.value.1 + ([':'] + r.value.2))
  {
    var (lead, t0) := Munch(Space, line);
    var (index, t1) := Munch(Digit, t0);
    if index == [] || t1 == [] || t1[0] != ':' then None
    else
      assert t1 == [':'] + t1[1..];
      Some((lead, index, t1[1..]))
  }

  /** `\s+(\d+\.\d+)` at the start of `s`: the gap, the number and the text after it. */
  function MatchField(s: string): (r: Option<(string, Decimal, string)>)
    ensures r.Some? ==> |r.value.0| >= 1 && All(Space, r.value.0) && r.value.1.WellFormed()
    ensures r.Some? ==> s == r.value.0 + r.value.1.Then(r.value.2) && StopsRun(Digit, r.value.2)
  {
    var (gap, t) := Munch(Space, s);
    if gap == [] then None
    else match MatchDecimal(t)
      case None => None
      case Some((d, rest)) => Some((gap, d, rest))
  }

  /**
   * `re.match(pattern, line)`.  The pattern's runs are separated by
   * characters of other classes, so the greedy runs never give back
   * characters and the match is found left to right in one pass.
   */
  function MatchLine(line: string): (r: Option<Match>)
    ensures r.Some? ==> r.value.row.WellFormed() && r.value.layout.WellFormed()
    ensures r.Some? ==> line == LineText(r.value.layout, r.value.row, r.value.rest)
    ensures r.Some? ==> StopsRun(Digit, r.value.rest)
  {
    match MatchHead(line)
    case None => None
    case Some((lead, index, t1)) =>
      match MatchField(t1)
      case None => None
      case Some((gap1, noisy, t2)) =>
        match MatchField(t2)
        case None => None
        case Some((gap2, clamped, t3)) =>
          match MatchField(t3)
          case None => None
          case Some((gap3, psnr, rest)) =>
            Some(Match(Row(index, noisy, clamped, psnr), Layout(lead, gap1, gap2, gap3), rest))
  }

  lemma DecimalStopsSpaces(d: Decimal, tail: string)
    requires d.WellFormed()
    ensures StopsRun(Space, d.Then(tail))
  {
    assert d.Then(tail)[0] == d.whole[0];
  }

  lemma MatchHeadComplete(lead: string, index: string, t: string)
    requires All(Space, lead) && |index| >= 1 && AllDigits(index)
    ensures MatchHead(lead + (index + ([':'] + t))) == Some((lead, index, t))
  {
    var afterIndex := [':'] + t;
    assert StopsRun(Space, index + afterIndex) by {
      assert (index + afterIndex)[0] == index[0];
    }
    MunchUnique(Space, lead, index + afterIndex);
    MunchUnique(Digit, index, afterIndex);
    assert afterIndex[1..] == t;
  }

  lemma MatchFieldComplete(gap: string, d: Decimal, tail: string)
    requires |gap| >= 1 && All(Space, gap) && d.WellFormed() && StopsRun(Digit, tail)
    ensures MatchField(gap + d.Then(tail)) == Some((gap, d, tail))
  {
    DecimalStopsSpaces(d, tail);
    MunchUnique(Space, gap, d.Then(tail));
    MatchDecimalComplete(d, tail);
  }

  /** A field fails on text that does not start with blanks and a digit. */
  lemma MatchFieldRejects(gap: string, c: char, tail: string)
    requires All(Space, gap) && !IsSpace(c) && !IsDigit(c)
    ensures MatchField(gap + ([c] + tail)) == None
  {
    MunchUnique(Space, gap, [c] + tail);
    MunchUnique(Digit, [], [c] + tail);
  }

  /**
   * Every well-formed line is recognised with exactly its groups when the
   * text after the third number is no digit: what follows that number is
   * ignored, since the pattern is anchored only at the start.
   */
  lemma MatchLineComplete(lay: Layout, row: Row, rest: string)
    requires lay.WellFormed() && row.WellFormed() && StopsRun(Digit, rest)
    ensures MatchLine(LineText(lay, row, rest)) == Some(Match(row, lay, rest))
  {
    var s3 := lay.gap3 + row.psnr.Then(rest);
    var s2 := lay.gap2 + row.clamped.Then(s3);
    var s1 := lay.gap1 + row.noisy.Then(s2);
    MatchHeadComplete(lay.lead, row.index, s1);
    assert StopsRun(Digit, s2) by {
      assert s2[0] == lay.gap2[0];
    }
    MatchFieldComplete(lay.gap1, row.noisy, s2);
    assert StopsRun(Digit, s3) by {
      assert s3[0] == lay.gap3[0];
    }
    MatchFieldComplete(lay.gap2, row.clamped, s3);
    MatchFieldComplete(lay.gap3, row.psnr, rest);
  }

  /**
   * A well-formed line followed by anything matches: only the third
   * number's fraction can grow, taking the leading digits of `rest` along,
   * as the greedy `\d+` does.
   */
  lemma MatchLineAnyRest(lay: Layout, row: Row, rest: string)
    requires lay.WellFormed() && row.WellFormed()
    ensures MatchLine(LineText(lay, row, rest)) ==
      var (more, left) := Munch(Digit, rest);
      Some(Match(Row(row.index, row.noisy, row.clamped, Decimal(row.psnr.whole, row.psnr.frac + more)), lay, left))
  {
    var (more, left) := Munch(Digit, rest);
    var row' := Row(row.index, row.noisy, row.clamped, Decimal(row.psnr.whole, row.psnr.frac + more));
    LongerFraction(lay, row, rest);
    MatchLineComplete(lay, row', left);
  }

  /** The same text, read with the leading digits of `rest` moved into the third fraction. */
  lemma LongerFraction(lay: Layout, row: Row, rest: string)
    requires row.WellFormed()
    ensures var (more, left) := Munch(Digit, rest);
      var row' := Row(row.index, row.noisy, row.clamped, Decimal(row.psnr.whole, row.psnr.frac + more));
      row'.WellFormed() && StopsRun(Digit, left) && LineText(lay, row, rest) == LineText(lay, row', left)
  {
    var (more, left) := Munch(Digit, rest);
    var psnr := Decimal(row.psnr.whole, row.psnr.frac + more);
    assert AllDigits(psnr.frac) by {
      assert forall i :: 0 <= i < |more| ==> In(Digit, more[i]);
    }
    assert row.psnr.Then(rest) == psnr.Then(left);
  }

  /**
   * A signed first number (`-` or `+` where its first digit should be)
   * makes the line fail, whatever follows.
   */
  lemma SignedNumberRejected(lead: string, index: string, gap1: string, sign: char, tail: string)
    requires All(Space, lead) && |index| >= 1 && AllDigits(index) && All(Space, gap1)
    requires sign == '-' || sign == '+'
    ensures MatchLine(lead + (index + ([':'] + (gap1 + ([sign] + tail))))) == None
  {
    MatchHeadComplete(lead, index, gap1 + ([sign] + tail));
    MatchFieldRejects(gap1, sign, tail);
  }

  /**
   * A first number without a decimal point (`12` followed by a gap) makes
   * the line fail.
   */
  lemma PointlessNumberRejected(lead: string, index: string, gap1: string, whole: string, gap2: string, tail: string)
    requires All(Space, lead) && |index| >= 1 && AllDigits(index) && All(Space, gap1)
    requires |whole| >= 1 && AllDigits(whole) && |gap2| >= 1 && All(Space, gap2)
    ensures MatchLine(lead + (index + ([':'] + (gap1 + (whole + (gap2 + tail)))))) == None
  {
    MatchHeadComplete(lead, index, gap1 + (whole + (gap2 + tail)));
    MatchFieldPointless(gap1, whole, gap2 + tail);
  }

  /** A field whose digits are followed by neither a point nor a digit fails. */
  lemma MatchFieldPointless(gap: string, whole: string, tail: string)
    requires All(Space, gap) && |whole| >= 1 && AllDigits(whole)
    requires |tail| >= 1 && IsSpace(tail[0])
    ensures MatchField(gap + (whole + tail)) == None
  {
    var s := whole + tail;
    assert StopsRun(Space, s) by {
      assert s[0] == whole[0];
    }
    MunchUnique(Space, gap, s);
    assert StopsRun(Digit, tail);
    MunchUnique(Digit, whole, tail);
  }

  /**
   * An exponent on the first number (`1.5e3`) makes the line fail: the
   * pattern needs whitespace right after its fraction.
   */
  lemma ExponentOnFirstRejected(lead: string, index: string, gap1: string, noisy: Decimal, tail: string)
    requires All(Space, lead) && |index| >= 1 && AllDigits(index) && |gap1| >= 1 && All(Space, gap1)
    requires noisy.WellFormed()
    ensures MatchLine(lead + (index + ([':'] + (gap1 + noisy.Then(['e'] + tail))))) == None
  {
    MatchHeadComplete(lead, index, gap1 + noisy.Then(['e'] + tail));
    MatchFieldComplete(gap1, noisy, ['e'] + tail);
    MatchFieldRejects([], 'e', tail);
    assert [] + (['e'] + tail) == ['e'] + tail;
  }

  // ---------------------------------------------------------------------
  // Accumulation over the lines of a file
  // ---------------------------------------------------------------------

  /** `f` applied to every element. */
  function Map<A, B>(f: A -> B, s: seq<A>): (r: seq<B>)
    ensures |r| == |s| && forall i :: 0 <= i < |s| ==> r[i] == f(s[i])
  {
    if s == [] then [] else [f(s[0])] + Map(f, s[1..])
  }

  lemma {:induction false} MapAppend<A, B>(f: A -> B, a: seq<A>, b: seq<A>)
    ensures Map(f, a + b) == Map(f, a) + Map(f, b)
    decreases |a|
  {
    if a == [] {
      assert a + b == b;
    } else {
      assert (a + b)[0] == a[0];
      assert (a + b)[1..] == a[1..] + b;
      MapAppend(f, a[1..], b);
    }
  }

  /** What `re.match` gives for each line. */
  function Recognised(lines: seq<string>): seq<Option<Match>>
  {
    Map(MatchLine, lines)
  }

  /** The rows of the successful matches, in order. */
  function Kept(ms: seq<Option<Match>>): seq<Row>
  {
    if ms == [] then []
    else Kept(ms[..|ms| - 1]) + (if ms[|ms| - 1].Some? then [ms[|ms| - 1].value.row] else [])
  }

  /** The number of successful matches. */
  function SomeCount(ms: seq<Option<Match>>): nat
  {
    if ms == [] then 0 else SomeCount(ms[..|ms| - 1]) + (if ms[|ms| - 1].Some? then 1 else 0)
  }

  /** Every successful match has well-formed groups. */
  predicate Sound(ms: seq<Option<Match>>)
  {
    forall i :: 0 <= i < |ms| && ms[i].Some? ==> ms[i].value.row.WellFormed()
  }

  lemma RecognisedSound(lines: seq<string>)
    ensures Sound(Recognised(lines))
  {
  }

  lemma SoundPrefix(ms: seq<Option<Match>>, n: nat)
    requires Sound(ms) && n <= |ms|
    ensures Sound(ms[..n])
  {
    var p := ms[..n];
    forall j | 0 <= j < n && p[j].Some? ensures p[j].value.row.WellFormed() {
      assert p[j] == ms[j];
    }
  }

  /** Rows whose groups are all well-formed, as every matched row is. */
  predicate WellFormedRows(rows: seq<Row>)
  {
    forall k {:trigger rows[k]} :: 0 <= k < |rows| ==> rows[k].WellFormed()
  }

  lemma {:induction false} KeptAppend(a: seq<Option<Match>>, b: seq<Option<Match>>)
    ensures Kept(a + b) == Kept(a) + Kept(b)
    ensures SomeCount(a + b) == SomeCount(a) + SomeCount(b)
    decreases |b|
  {
    if b == [] {
      assert a + b == a;
    } else {
      var b0 := b[..|b| - 1];
      assert (a + b)[..|a + b| - 1] == a + b0;
      assert (a + b)[|a + b| - 1] == b[|b| - 1];
      KeptAppend(a, b0);
    }
  }

  /** One row per successful match, each well-formed when the matches are. */
  lemma {:induction false} KeptCount(ms: seq<Option<Match>>)
    ensures |Kept(ms)| == SomeCount(ms)
    ensures Sound(ms) ==> WellFormedRows(Kept(ms))
    decreases |ms|
  {
    if ms != [] {
      var ms0 := ms[..|ms| - 1];
      KeptCount(ms0);
      if Sound(ms) {
        assert Sound(ms0) by {
          forall i | 0 <= i < |ms0| && ms0[i].Some? ensures ms0[i].value.row.WellFormed() {
            assert ms0[i] == ms[i];
          }
        }
        var rows := Kept(ms);
        forall k | 0 <= k < |rows| ensures rows[k].WellFormed() {
          if k < |Kept(ms0)| {
            assert rows[k] == Kept(ms0)[k];
          }
        }
      }
    }
  }

  /** The rows of the matching lines, in file order. */
  function Rows(lines: seq<string>): (rows: seq<Row>)
    ensures |rows| <= |lines|
    ensures WellFormedRows(rows)
  {
    var ms := Recognised(lines);
    RecognisedSound(lines);
    KeptCount(ms);
    SomeCountAtMost(ms);
    Kept(ms)
  }

  lemma {:induction false} SomeCountAtMost(ms: seq<Option<Match>>)
    ensures SomeCount(ms) <= |ms|
    decreases |ms|
  {
    if ms != [] {
      SomeCountAtMost(ms[..|ms| - 1]);
    }
  }

  /** The number of lines `re.match` accepts. */
  function MatchCount(lines: seq<string>): nat
  {
    SomeCount(Recognised(lines))
  }

  lemma RowsAppend(a: seq<string>, b: seq<string>)
    ensures Rows(a + b) == Rows(a) + Rows(b)
  {
    MapAppend(MatchLine, a, b);
    KeptAppend(Recognised(a), Recognised(b));
  }

  /** A line either contributes its own row or, when it does not match, nothing. */
  lemma RowsOfOne(line: string)
    ensures Rows([line]) == if MatchLine(line).Some? then [MatchLine(line).value.row] else []
  {
    var ms := Recognised([line]);
    assert ms[..0] == [];
    assert Kept(ms[..0]) == [];
    assert ms[0] == MatchLine(line);
  }

  /** One row per matching line. */
  lemma RowsCount(lines: seq<string>)
    ensures |Rows(lines)| == MatchCount(lines)
  {
    KeptCount(Recognised(lines));
  }

  /** The rows of the first `i + 1` matches extend those of the first `i` by match `i`'s row, if any. */
  lemma KeptStep(ms: seq<Option<Match>>, i: nat)
    requires i < |ms|
    ensures Kept(ms[..i + 1]) == Kept(ms[..i]) + (if ms[i].Some? then [ms[i].value.row] else [])
  {
    assert ms[..i + 1][..i] == ms[..i];
    assert ms[..i + 1][i] == ms[i];
  }

  lemma KeptSoundStep(ms: seq<Option<Match>>, i: nat)
    requires i < |ms| && Sound(ms)
    ensures ms[i].Some? ==> ms[i].value.row.WellFormed()
    ensures Kept(ms[..i + 1]) == Kept(ms[..i]) + (if ms[i].Some? then [ms[i].value.row] else [])
    ensures WellFormedRows(Kept(ms[..i + 1]))
  {
    KeptStep(ms, i);
    SoundPrefix(ms, i + 1);
    KeptCount(ms[..i + 1]);
  }

  lemma KeptPosition(ms: seq<Option<Match>>, p: nat)
    requires p < |ms| && ms[p].Some?
    ensures |Kept(ms[..p])| < |Kept(ms)|
    ensures Kept(ms)[|Kept(ms[..p])|] == ms[p].value.row
  {
    assert ms == ms[..p + 1] + ms[p + 1..];
    KeptAppend(ms[..p + 1], ms[p + 1..]);
    KeptStep(ms, p);
  }

  lemma RecognisedPrefix(lines: seq<string>, p: nat)
    requires p <= |lines|
    ensures Recognised(lines[..p]) == Recognised(lines)[..p]
  {
  }

  /**
   * File order is kept: the row of a matching line `p` comes right after
   * the rows of the lines before it.
   */
  lemma RowsPosition(lines: seq<string>, p: nat)
    requires p < |lines| && MatchLine(lines[p]).Some?
    ensures |Rows(lines[..p])| < |Rows(lines)|
    ensures Rows(lines)[|Rows(lines[..p])|] == MatchLine(lines[p]).value.row
  {
    var ms := Recognised(lines);
    RecognisedPrefix(lines, p);
    assert ms[p] == MatchLine(lines[p]);
    KeptPosition(ms, p);
  }

  /** The values of `int(idx)` for the rows. */
  function IndexColumn(rows: seq<Row>): (c: seq<int>)
    requires WellFormedRows(rows)
    ensures |c| == |rows|
    ensures forall k :: 0 <= k < |rows| ==> c[k] == Value(rows[k].index)
  {
    if rows == [] then [] else IndexColumn(rows[..|rows| - 1]) + [Value(rows[|rows| - 1].index)]
  }

  /** Which of the three numbers of a row a column holds. */
  datatype Field = NoisyField | ClampedField | PsnrField

  function Pick(row: Row, f: Field): Decimal
  {
    match f
    case NoisyField => row.noisy
    case ClampedField => row.clamped
    case PsnrField => row.psnr
  }

  /** The values of `float(val)` for one of the three numbers of the rows. */
  function ValueColumn(rows: seq<Row>, f: Field): (c: seq<real>)
    requires WellFormedRows(rows)
    ensures |c| == |rows|
    ensures forall k :: 0 <= k < |rows| ==> Pick(rows[k], f).WellFormed() && c[k] == Pick(rows[k], f).Number()
  {
    if rows == [] then [] else ValueColumn(rows[..|rows| - 1], f) + [Pick(rows[|rows| - 1], f).Number()]
  }

  /** Appending one row appends its entry to every column. */
  lemma ColumnsAppend(rows: seq<Row>, row: Row)
    requires WellFormedRows(rows) && row.WellFormed()
    ensures WellFormedRows(rows + [row])
    ensures IndexColumn(rows + [row]) == IndexColumn(rows) + [Value(row.index)]
    ensures forall f :: ValueColumn(rows + [row], f) == ValueColumn(rows, f) + [Pick(row, f).Number()]
  {
    var r := rows + [row];
    assert WellFormedRows(r) by {
      forall k | 0 <= k < |r| ensures r[k].WellFormed() {
        if k < |rows| {
          assert r[k] == rows[k];
        }
      }
    }
    assert r[..|r| - 1] == rows;
  }

  /** The keys of the returned dictionary. */
  const NoisyKey: string := "noisy"
  const ClampedKey: string := "denoised_clamped"
  const PsnrKey: string := "denoised_psnr"

  function KeyOf(f: Field): string
  {
    match f
    case NoisyField => NoisyKey
    case ClampedField => ClampedKey
    case PsnrField => PsnrKey
  }

  /** A dictionary of three columns, one per number of the line, in column order. */
  predicate HasColumns(values: map<string, seq<real>>, rows: seq<Row>)
    requires WellFormedRows(rows)
  {
    values.Keys == {NoisyKey, ClampedKey, PsnrKey} &&
    values[NoisyKey] == ValueColumn(rows, NoisyField) &&
    values[ClampedKey] == ValueColumn(rows, ClampedField) &&
    values[PsnrKey] == ValueColumn(rows, PsnrField)
  }

  /** Lines 28-31 for one matching line: append the index and the three numbers. */
  method AppendRow(values: map<string, seq<real>>, indices: seq<int>, ghost rows: seq<Row>, row: Row)
    returns (values': map<string, seq<real>>, indices': seq<int>)
    requires WellFormedRows(rows) && row.WellFormed()
    requires HasColumns(values, rows) && indices == IndexColumn(rows)
    ensures WellFormedRows(rows + [row])
    ensures HasColumns(values', rows + [row]) && indices' == IndexColumn(rows + [row])
  {
    ColumnsAppend(rows, row);
    indices' := indices + [Value(row.index)];
    values' := values[NoisyKey := values[NoisyKey] + [row.noisy.Number()]];
    values' := values'[ClampedKey := values'[ClampedKey] + [row.clamped.Number()]];
    values' := values'[PsnrKey := values'[PsnrKey] + [row.psnr.Number()]];
    assert ValueColumn(rows + [row], NoisyField) == ValueColumn(rows, NoisyField) + [row.noisy.Number()];
    assert ValueColumn(rows + [row], ClampedField) == ValueColumn(rows, ClampedField) + [row.clamped.Number()];
    assert ValueColumn(rows + [row], PsnrField) == ValueColumn(rows, PsnrField) + [row.psnr.Number()];
  }

  /** One pass of the loop, for line `i` of the file, whose recognition is `ms[i]`. */
  method ParseLine(ghost ms: seq<Option<Match>>, i: nat, line: string, values: map<string, seq<real>>, indices: seq<int>)
    returns (values': map<string, seq<real>>, indices': seq<int>)
    requires i < |ms| && Sound(ms) && ms[i] == MatchLine(line)
    requires WellFormedRows(Kept(ms[..i]))
    requires HasColumns(values, Kept(ms[..i])) && indices == IndexColumn(Kept(ms[..i]))
    ensures WellFormedRows(Kept(ms[..i + 1]))
    ensures HasColumns(values', Kept(ms[..i + 1])) && indices' == IndexColumn(Kept(ms[..i + 1]))
  {
    KeptSoundStep(ms, i);
    var m := MatchLine(line);
    if m.Some? {
      values', indices' := AppendRow(values, indices, Kept(ms[..i]), m.value.row);
    } else {
      values', indices' := values, indices;
    }
  }

  /**
   * The loop over the lines of the file: every matching line appends its
   * index and its three numbers, every other line is skipped.
   */
  method ParsePsnrFile(lines: seq<string>) returns (values: map<string, seq<real>>, indices: seq<int>)
    ensures HasColumns(values, Rows(lines))
    ensures indices == IndexColumn(Rows(lines))
  {
    values := map[NoisyKey := [], ClampedKey := [], PsnrKey := []];
    indices := [];
    ghost var ms := Recognised(lines);
    RecognisedSound(lines);
    KeptCount(ms[..0]);
    var i := 0;
    while i < |lines|
      invariant 0 <= i <= |lines|
      invariant WellFormedRows(Kept(ms[..i]))
      invariant HasColumns(values, Kept(ms[..i]))
      invariant indices == IndexColumn(Kept(ms[..i]))
    {
      values, indices := ParseLine(ms, i, lines[i], values, indices);
      i := i + 1;
    }
    assert ms[..i] == ms;
  }

  /** Every column has one entry per matching line, and every entry is a non-negative number. */
  lemma ColumnsAligned(lines: seq<string>, values: map<string, seq<real>>, indices: seq<int>, f: Field)
    requires HasColumns(values, Rows(lines)) && indices == IndexColumn(Rows(lines))
    ensures KeyOf(f) in values
    ensures |indices| == |values[KeyOf(f)]| == MatchCount(lines)
    ensures forall k :: 0 <= k < |indices| ==> indices[k] >= 0 && values[KeyOf(f)][k] >= 0.0
  {
    RowsCount(lines);
    var rows := Rows(lines);
    forall k | 0 <= k < |rows| ensures values[KeyOf(f)][k] >= 0.0 {
      NumberBounds(Pick(rows[k], f));
    }
  }

  // ---------------------------------------------------------------------
  // The keys the plots read
  // ---------------------------------------------------------------------

  /** The dictionary keys `plot_histograms` and `plot_comparison` look up, as written. */
  const PlotKeysAsWritten: seq<string> := ["noisy", "denoised_1", "denoised_2"]

  /** The keys the plots evidently mean: the three columns the parser fills, in the same order. */
  const PlotKeys: seq<string> := [NoisyKey, ClampedKey, PsnrKey]

  /** Two of the keys the plots read are never produced, so those lookups fail. */
  lemma PlotKeysAsWrittenMissing(values: map<string, seq<real>>, rows: seq<Row>)
    requires WellFormedRows(rows)
    requires HasColumns(values, rows)
    ensures PlotKeysAsWritten[1] !in values && PlotKeysAsWritten[2] !in values
  {
    assert PlotKeysAsWritten[1] != ClampedKey && PlotKeysAsWritten[1] != PsnrKey && PlotKeysAsWritten[1] != NoisyKey;
    assert PlotKeysAsWritten[2] != ClampedKey && PlotKeysAsWritten[2] != PsnrKey && PlotKeysAsWritten[2] != NoisyKey;
  }

  /** Every corrected plot key names a column, and the three name distinct columns. */
  lemma PlotKeysPresent(values: map<string, seq<real>>, rows: seq<Row>)
    requires WellFormedRows(rows)
    requires HasColumns(values, rows)
    ensures forall i :: 0 <= i < |PlotKeys| ==> PlotKeys[i] in values
    ensures forall i, j :: 0 <= i < j < |PlotKeys| ==> PlotKeys[i] != PlotKeys[j]
  {
  }
}
