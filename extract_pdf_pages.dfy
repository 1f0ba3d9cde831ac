/** extract_pdf_pages.py: turning page specifications such as "4-6" or "8" into
    zero-based page indices, and assembling the output document's page list.
    The document itself is abstract: a page count going in, and the sequence of
    page indices handed to the writer coming out. */
module ExtractPdfPages {
  import opened Cli
  import opened PyInt

  const OutOfRangeMessage := "Page is outside of range."
  const StartAfterEndMessage := "Start of range is greater than end of range."

  function MalformedMessage(value: string): string
  {
    "Unable to parse page specification " + value + ". Please check format."
  }

  /** str.split(sep) with an explicit separator: the pieces between separators,
      empty ones included, so there is always at least one. */
  function Split(s: string, sep: char): (r: seq<string>)
    ensures |r| >= 1
    ensures forall i :: 0 <= i < |r| ==> sep !in r[i]
  {
    if s == [] then [""]
    else if s[0] == sep then [""] + Split(s[1..], sep)
    else
      var rest := Split(s[1..], sep);
      [[s[0]] + rest[0]] + rest[1..]
  }

  /** sep.join(parts), the inverse of Split. */
  function Join(parts: seq<string>, sep: char): string
    requires |parts| >= 1
  {
    if |parts| == 1 then parts[0] else parts[0] + [sep] + Join(parts[1..], sep)
  }

  lemma {:induction false} JoinSplit(s: string, sep: char)
    ensures Join(Split(s, sep), sep) == s
  {
    if s != [] {
      JoinSplit(s[1..], sep);
      var rest := Split(s[1..], sep);
      if s[0] != sep && |rest| > 1 {
        assert Split(s, sep)[1..] == rest[1..];
      }
    }
  }

  /** Splitting text with a separator-free head keeps that head at the front of
      the first piece. */
  lemma {:induction false} SplitPrefix(p: string, t: string, sep: char)
    requires sep !in p
    ensures Split(p + t, sep) == [p + Split(t, sep)[0]] + Split(t, sep)[1..]
  {
    var st := Split(t, sep);
    if p != [] {
      assert (p + t)[0] == p[0] && (p + t)[1..] == p[1..] + t;
      SplitPrefix(p[1..], t, sep);
      assert [p[0]] + (p[1..] + st[0]) == p + st[0];
    } else {
      assert p + t == t && p + st[0] == st[0];
    }
  }

  lemma SplitNoSeparator(p: string, sep: char)
    requires sep !in p
    ensures Split(p, sep) == [p]
  {
    SplitPrefix(p, "", sep);
    assert p + "" == p;
  }

  lemma SplitAtSeparator(p: string, t: string, sep: char)
    requires sep !in p
    ensures Split(p + [sep] + t, sep) == [p] + Split(t, sep)
  {
    assert p + [sep] + t == p + ([sep] + t);
    SplitPrefix(p, [sep] + t, sep);
    assert ([sep] + t)[1..] == t;
    assert p + "" == p;
  }

  /** [int(x) for x in pieces]: the first piece int() refuses raises ValueError. */
  function ParsePieces(pieces: seq<string>): (r: Result<seq<int>>)
    ensures r.Ok? <==> forall i :: 0 <= i < |pieces| ==> ParseInt(pieces[i]).Some?
    ensures r.Ok? ==> |r.value| == |pieces| &&
                      forall i :: 0 <= i < |pieces| ==> ParseInt(pieces[i]) == Some(r.value[i])
    ensures r.Err? ==> r.error.ValueError? && r.error.literal in pieces &&
                       ParseInt(r.error.literal).None?
    ensures r.Err? ==> (exists i :: 0 <= i < |pieces| && pieces[i] == r.error.literal &&
                                    forall j :: 0 <= j < i ==> ParseInt(pieces[j]).Some?)
  {
    if pieces == [] then Ok([])
    else
      match ParseInt(pieces[0])
      case None => Err(ValueError(pieces[0]))
      case Some(n) =>
        match ParsePieces(pieces[1..])
        case Err(e) => Err(e)
        case Ok(rest) => Ok([n] + rest)
  }

  /** any(i > bound for i in parts). */
  predicate AnyAbove(parts: seq<int>, bound: int)
    ensures !AnyAbove(parts, bound) <==> forall i :: 0 <= i < |parts| ==> parts[i] <= bound
  {
    exists i :: 0 <= i < |parts| && parts[i] > bound
  }

  /** list(range(lo, hi)). */
  function Range(lo: int, hi: int): (r: seq<int>)
    ensures |r| == if lo <= hi then hi - lo else 0
    ensures forall i :: 0 <= i < |r| ==> r[i] == lo + i
  {
    if lo < hi then seq(hi - lo, i requires 0 <= i < hi - lo => lo + i) else []
  }

  /** get_range: a page specification to the zero-based indices it selects.
      The one-based numbers are checked against the page count, but not against
      1, before the shape of the specification is looked at. */
  function GetRange(value: string, pageCount: nat): (r: Result<seq<int>>)
    ensures r.Ok? ==> 1 <= |Split(value, '-')| <= 2 && |r.value| >= 1
    ensures r.Ok? ==> forall i :: 0 <= i < |r.value| ==> -1 <= r.value[i] < pageCount
    ensures (r.Err? && r.error.ValueError?) <==> ParsePieces(Split(value, '-')).Err?
  {
    match ParsePieces(Split(value, '-'))
    case Err(e) => Err(e)
    case Ok(parts) => RangeOfParts(value, parts, pageCount)
  }

  /** get_range once every piece has been converted (split pieces hold no '-',
      so none is negative): the bound check first, then the shape. One number x
      selects x - 1; two ordered numbers s, e select s - 1 through e - 1. */
  function RangeOfParts(value: string, parts: seq<int>, pageCount: nat): (r: Result<seq<int>>)
    requires forall i :: 0 <= i < |parts| ==> parts[i] >= 0
    ensures r.Ok? <==> !AnyAbove(parts, pageCount) &&
                       (|parts| == 1 || (|parts| == 2 && parts[0] <= parts[1]))
    ensures r.Ok? && |parts| == 1 ==> r.value == [parts[0] - 1]
    ensures r.Ok? && |parts| == 2 ==>
              |r.value| == parts[1] - parts[0] + 1 &&
              forall i :: 0 <= i < |r.value| ==> r.value[i] == parts[0] - 1 + i
    ensures r.Ok? ==> forall i :: 0 <= i < |r.value| ==> -1 <= r.value[i] < pageCount
    ensures AnyAbove(parts, pageCount) ==> r == Err(ArgumentTypeError(OutOfRangeMessage))
    ensures !AnyAbove(parts, pageCount) && |parts| == 2 && parts[0] > parts[1] ==>
              r == Err(ArgumentTypeError(StartAfterEndMessage))
    ensures !AnyAbove(parts, pageCount) && |parts| != 1 && |parts| != 2 ==>
              r == Err(ArgumentTypeError(MalformedMessage(value)))
  {
    if AnyAbove(parts, pageCount) then
      Err(ArgumentTypeError(OutOfRangeMessage))
    else if |parts| == 2 then
      if parts[0] > parts[1] then Err(ArgumentTypeError(StartAfterEndMessage))
      else Ok(Range(parts[0] - 1, parts[1]))
    else if |parts| == 1 then
      Ok([parts[0] - 1])
    else
      Err(ArgumentTypeError(MalformedMessage(value)))
  }

  /** A specification with no '-' that int() reads as x <= page count selects
      exactly page x - 1, however x is spelled ("3", "03", "+3"). */
  lemma SinglePage(a: string, x: int, pageCount: nat)
    requires '-' !in a && ParseInt(a) == Some(x) && x <= pageCount
    ensures GetRange(a, pageCount) == Ok([x - 1])
  {
    SplitNoSeparator(a, '-');
    assert [a][1..] == [];
    assert ParsePieces([a]) == Ok([x] + []);
    assert [x] + [] == [x];
  }

  /** There is no lower-bound check: "0" selects index -1. */
  lemma PageZeroGivesMinusOne(pageCount: nat)
    ensures GetRange("0", pageCount) == Ok([-1])
  {
    assert Numeral(0) == "0";
    ParseNumeral(0);
    SinglePage("0", 0, pageCount);
  }

  /** Leading zeros and a plus sign are read by int(): "03" and "+3" both select
      index 2. */
  lemma OtherSpellingsAccepted(pageCount: nat)
    requires pageCount >= 3
    ensures GetRange("03", pageCount) == Ok([2])
    ensures GetRange("+3", pageCount) == Ok([2])
  {
    assert "03"[..1] == "0" && "0"[..0] == "" && "+3"[1..] == "3" && "3"[..0] == "";
    assert DigitsValue("0") == 0;
    assert DigitsValue("03") == 3;
    assert ParseInt("03") == Some(3);
    assert ParseInt("+3") == Some(3);
    SinglePage("03", 3, pageCount);
    SinglePage("+3", 3, pageCount);
  }

  /** The pieces of a + "-" + b, for texts without '-', convert to their values. */
  lemma SpanPieces(a: string, b: string, s: int, e: int)
    requires '-' !in a && '-' !in b && ParseInt(a) == Some(s) && ParseInt(b) == Some(e)
    ensures ParsePieces(Split(a + "-" + b, '-')) == Ok([s, e])
  {
    SplitAtSeparator(a, b, '-');
    SplitNoSeparator(b, '-');
    assert Split(a + "-" + b, '-') == [a, b];
    assert [a, b][1..] == [b];
    assert [b][1..] == [];
    assert ParsePieces([b]) == Ok([e] + []);
    assert [s] + ([e] + []) == [s, e];
  }

  /** "s-e" with s <= e <= page count selects s - 1 through e - 1, e - s + 1
      pages in ascending order; s == e is accepted. The numbers may be spelled
      any way int() reads them ("1-03", "+2-+5"). */
  lemma PageSpan(a: string, b: string, s: int, e: int, pageCount: nat)
    requires '-' !in a && '-' !in b && ParseInt(a) == Some(s) && ParseInt(b) == Some(e)
    requires s <= e <= pageCount
    ensures GetRange(a + "-" + b, pageCount).Ok?
    ensures var pages := GetRange(a + "-" + b, pageCount).value;
            |pages| == e - s + 1 && forall i :: 0 <= i < |pages| ==> pages[i] == s - 1 + i
  {
    SpanPieces(a, b, s, e);
  }

  /** "s-e" with s > e is rejected once both numbers are within the page count. */
  lemma SpanBackwardsRejected(a: string, b: string, s: int, e: int, pageCount: nat)
    requires '-' !in a && '-' !in b && ParseInt(a) == Some(s) && ParseInt(b) == Some(e)
    requires e < s <= pageCount
    ensures GetRange(a + "-" + b, pageCount) == Err(ArgumentTypeError(StartAfterEndMessage))
  {
    SpanPieces(a, b, s, e);
  }

  /** Any number above the page count is reported as out of range, whatever the
      shape of the specification, because that check comes first. */
  lemma AboveCountRejectedFirst(value: string, pageCount: nat)
    requires ParsePieces(Split(value, '-')).Ok?
    requires AnyAbove(ParsePieces(Split(value, '-')).value, pageCount)
    ensures GetRange(value, pageCount) == Err(ArgumentTypeError(OutOfRangeMessage))
  {
  }

  /** Three or more numbers, all within the page count, are a format error that
      quotes the specification. */
  lemma TooManyNumbersRejected(value: string, pageCount: nat)
    requires ParsePieces(Split(value, '-')).Ok?
    requires !AnyAbove(ParsePieces(Split(value, '-')).value, pageCount)
    requires |Split(value, '-')| >= 3
    ensures GetRange(value, pageCount) == Err(ArgumentTypeError(MalformedMessage(value)))
  {
  }

  /** "1-2-99" against ten pages fails as out of range, not as malformed. */
  lemma OutOfRangeBeatsMalformed()
    ensures GetRange("1-2-99", 10) == Err(ArgumentTypeError(OutOfRangeMessage))
  {
    assert "1-2-99" == Numeral(1) + "-" + (Numeral(2) + "-" + Numeral(99));
    SplitAtSeparator(Numeral(1), Numeral(2) + "-" + Numeral(99), '-');
    ParseNumeral(1);
    ParseNumeral(2);
    ParseNumeral(99);
    SpanPieces(Numeral(2), Numeral(99), 2, 99);
    assert ParsePieces(Split("1-2-99", '-')).value[2] == 99;
  }

  /** A piece that is empty or not a number fails at conversion, before any
      other check: "abc", "-3" and "3-" among them. */
  lemma NonNumericPieceRejected(value: string, pageCount: nat, i: nat)
    requires i < |Split(value, '-')| && ParseInt(Split(value, '-')[i]).None?
    ensures GetRange(value, pageCount).Err? && GetRange(value, pageCount).error.ValueError?
  {
  }

  lemma LeadingDashRejected(n: nat, pageCount: nat)
    ensures GetRange("-" + Numeral(n), pageCount) == Err(ValueError(""))
  {
    SplitAtSeparator("", Numeral(n), '-');
    assert "" + "-" + Numeral(n) == "-" + Numeral(n);
  }

  lemma TrailingDashRejected(n: nat, pageCount: nat)
    ensures GetRange(Numeral(n) + "-", pageCount) == Err(ValueError(""))
  {
    SplitAtSeparator(Numeral(n), "", '-');
    assert Numeral(n) + "-" + "" == Numeral(n) + "-";
    ParseNumeral(n);
  }

  /** What get_range yields for each specification, in order. */
  function RangesOf(specs: seq<string>, pageCount: nat): (r: seq<Result<seq<int>>>)
    ensures |r| == |specs|
    ensures forall i :: 0 <= i < |specs| ==> r[i] == GetRange(specs[i], pageCount)
  {
    seq(|specs|, i requires 0 <= i < |specs| => GetRange(specs[i], pageCount))
  }

  /** The pages of a list of results, front to back; the earliest error wins. */
  function ConcatResults(rs: seq<Result<seq<int>>>): (r: Result<seq<int>>)
    ensures r.Ok? <==> forall i :: 0 <= i < |rs| ==> rs[i].Ok?
  {
    if rs == [] then Ok([])
    else
      match ConcatResults(rs[..|rs| - 1])
      case Err(e) => Err(e)
      case Ok(pages) =>
        match rs[|rs| - 1]
        case Err(e) => Err(e)
        case Ok(more) => Ok(pages + more)
  }

  /** The page list main builds: every specification's pages in order, with
      repeats kept; the first specification get_range rejects aborts the run. */
  function AssemblePages(specs: seq<string>, pageCount: nat): (r: Result<seq<int>>)
    ensures r.Ok? <==> forall i :: 0 <= i < |specs| ==> GetRange(specs[i], pageCount).Ok?
  {
    ConcatResults(RangesOf(specs, pageCount))
  }

  /** A failed concatenation carries the error of the earliest failing result. */
  lemma {:induction false} ConcatFirstError(rs: seq<Result<seq<int>>>)
    requires ConcatResults(rs).Err?
    ensures exists i :: 0 <= i < |rs| && rs[i] == ConcatResults(rs) && forall j :: 0 <= j < i ==> rs[j].Ok?
  {
    var init := rs[..|rs| - 1];
    if ConcatResults(init).Err? {
      ConcatFirstError(init);
      var i :| 0 <= i < |init| && init[i] == ConcatResults(init) && forall j :: 0 <= j < i ==> init[j].Ok?;
      assert rs[i] == init[i];
      forall j | 0 <= j < i ensures rs[j].Ok? {
        assert rs[j] == init[j];
      }
    } else {
      forall j | 0 <= j < |rs| - 1 ensures rs[j].Ok? {
        assert rs[j] == init[j];
      }
    }
  }

  /** A rejected run reports the error of the first specification get_range
      rejects; every specification before it was accepted. */
  lemma AssembleFirstError(specs: seq<string>, pageCount: nat)
    requires AssemblePages(specs, pageCount).Err?
    ensures exists i :: 0 <= i < |specs| && GetRange(specs[i], pageCount) == AssemblePages(specs, pageCount) &&
                        forall j :: 0 <= j < i ==> GetRange(specs[j], pageCount).Ok?
  {
    var rs := RangesOf(specs, pageCount);
    ConcatFirstError(rs);
    var i :| 0 <= i < |rs| && rs[i] == ConcatResults(rs) && forall j :: 0 <= j < i ==> rs[j].Ok?;
    assert GetRange(specs[i], pageCount) == AssemblePages(specs, pageCount);
  }

  /** Every index handed to the writer lies between -1 and page count - 1. */
  lemma {:induction false} AssembledIndicesInRange(specs: seq<string>, pageCount: nat)
    requires AssemblePages(specs, pageCount).Ok?
    ensures var pages := AssemblePages(specs, pageCount).value;
            forall k :: 0 <= k < |pages| ==> -1 <= pages[k] < pageCount
  {
    if specs != [] {
      var init := specs[..|specs| - 1];
      var last := specs[|specs| - 1];
      assert specs == init + [last];
      AssembleAppend(init, [last], pageCount);
      AssembledIndicesInRange(init, pageCount);
      var p := AssemblePages(init, pageCount).value;
      var q := GetRange(last, pageCount).value;
      assert RangesOf([last], pageCount) == [Ok(q)];
      ConcatSingle(q);
      assert AssemblePages(specs, pageCount).value == p + q;
    }
  }

  lemma {:induction false} ConcatAppend(a: seq<Result<seq<int>>>, b: seq<Result<seq<int>>>)
    ensures ConcatResults(a + b) ==
              match ConcatResults(a)
              case Err(e) => Err(e)
              case Ok(p) =>
                match ConcatResults(b)
                case Err(e) => Err(e)
                case Ok(q) => Ok(p + q)
  {
    if b == [] {
      assert a + b == a;
      if ConcatResults(a).Ok? {
        assert ConcatResults(a).value + [] == ConcatResults(a).value;
      }
    } else {
      var ab := a + b;
      assert ab[..|ab| - 1] == a + b[..|b| - 1];
      assert ab[|ab| - 1] == b[|b| - 1];
      ConcatAppend(a, b[..|b| - 1]);
      if ConcatResults(a).Ok? && ConcatResults(b[..|b| - 1]).Ok? && b[|b| - 1].Ok? {
        var p, q, m := ConcatResults(a).value, ConcatResults(b[..|b| - 1]).value, b[|b| - 1].value;
        assert (p + q) + m == p + (q + m);
      }
    }
  }

  /** Assembling two lists of specifications one after the other is assembling
      their concatenation: pages keep the order of the specifications. */
  lemma AssembleAppend(a: seq<string>, b: seq<string>, pageCount: nat)
    ensures AssemblePages(a + b, pageCount) ==
              match AssemblePages(a, pageCount)
              case Err(e) => Err(e)
              case Ok(p) =>
                match AssemblePages(b, pageCount)
                case Err(e) => Err(e)
                case Ok(q) => Ok(p + q)
  {
    assert RangesOf(a + b, pageCount) == RangesOf(a, pageCount) + RangesOf(b, pageCount);
    ConcatAppend(RangesOf(a, pageCount), RangesOf(b, pageCount));
  }

  /** Repeated pages are kept: "1 1 2" gives [0, 0, 1]. */
  lemma RepeatsKept(pageCount: nat)
    requires pageCount >= 2
    ensures AssemblePages(["1", "1", "2"], pageCount) == Ok([0, 0, 1])
  {
    assert Numeral(1) == "1" && Numeral(2) == "2";
    ParseNumeral(1);
    ParseNumeral(2);
    SinglePage("1", 1, pageCount);
    SinglePage("2", 2, pageCount);
    var rs := RangesOf(["1", "1", "2"], pageCount);
    assert rs == [Ok([0])] + [Ok([0])] + [Ok([1])];
    ConcatSingle([0]);
    ConcatSingle([1]);
    ConcatAppend([Ok([0])], [Ok([0])]);
    ConcatAppend([Ok([0])] + [Ok([0])], [Ok([1])]);
    assert [0] + [0] + [1] == [0, 0, 1];
    assert AssemblePages(["1", "1", "2"], pageCount) == ConcatResults(rs);
  }

  lemma ConcatSingle(pages: seq<int>)
    ensures ConcatResults([Ok(pages)]) == Ok(pages)
  {
    assert [Ok(pages)][..0] == [];
    assert [] + pages == pages;
  }

  /** One more result extends the concatenation of a prefix. */
  lemma ConcatStep(rs: seq<Result<seq<int>>>, t: nat, pages: seq<int>)
    requires t < |rs| && ConcatResults(rs[..t]) == Ok(pages)
    ensures rs[t].Err? ==> ConcatResults(rs[..t + 1]) == rs[t]
    ensures rs[t].Ok? ==> ConcatResults(rs[..t + 1]) == Ok(pages + rs[t].value)
  {
    assert rs[..t + 1][..t] == rs[..t];
  }

  /** Once a prefix has failed, the whole concatenation fails the same way. */
  lemma ConcatErrorStays(rs: seq<Result<seq<int>>>, t: nat)
    requires t <= |rs| && ConcatResults(rs[..t]).Err?
    ensures ConcatResults(rs) == ConcatResults(rs[..t])
  {
    ConcatAppend(rs[..t], rs[t..]);
    assert rs[..t] + rs[t..] == rs;
  }

  /** One step of main's loop: after the first t specifications have produced
      `pages`, the next one either aborts the whole run with its error or
      extends the page list. */
  lemma AssembleStep(specs: seq<string>, t: nat, pageCount: nat, pages: seq<int>)
    requires t < |specs| && AssemblePages(specs[..t], pageCount) == Ok(pages)
    ensures GetRange(specs[t], pageCount).Err? ==>
              AssemblePages(specs, pageCount) == GetRange(specs[t], pageCount)
    ensures GetRange(specs[t], pageCount).Ok? ==>
              AssemblePages(specs[..t + 1], pageCount) == Ok(pages + GetRange(specs[t], pageCount).value)
  {
    var ranges := RangesOf(specs, pageCount);
    assert RangesOf(specs[..t], pageCount) == ranges[..t];
    assert RangesOf(specs[..t + 1], pageCount) == ranges[..t + 1];
    ConcatStep(ranges, t, pages);
    if ranges[t].Err? {
      ConcatErrorStays(ranges, t + 1);
    }
  }

  /** main's page loop: for each specification, every page index get_range
      yields is appended to the writer. A rejected specification stops the run
      before anything is written. */
  method ExtractPages(specs: seq<string>, pageCount: nat) returns (r: Result<seq<int>>)
    ensures r == AssemblePages(specs, pageCount)
  {
    var writer: seq<int> := [];
    var t := 0;
    while t < |specs|
      invariant 0 <= t <= |specs|
      invariant AssemblePages(specs[..t], pageCount) == Ok(writer)
    {
      var got := GetRange(specs[t], pageCount);
      AssembleStep(specs, t, pageCount, writer);
      if got.Err? {
        return got;
      }
      var pages := got.value;
      ghost var before := writer;
      var k := 0;
      while k < |pages|
        invariant 0 <= k <= |pages|
        invariant writer == before + pages[..k]
      {
        writer := writer + [pages[k]];
        k := k + 1;
      }
      assert pages[..k] == pages;
      t := t + 1;
    }
    assert specs[..t] == specs;
    r := Ok(writer);
  }
}
