/** The id-range scanner of src/main/java/Day02.java: ranges of ids are parsed
    from "a-b,c-d,...", every id in every range is tested against two
    self-repetition rules on its decimal rendering, and the matching ids are
    summed (BigInteger becomes nat). */
module InvalidIds {
  import opened Wrappers
  import opened Decimal
  import opened JavaText
  import opened Sequences

  /** An inclusive range of ids; lower > upper is allowed and holds no id. */
  datatype Range = Range(lower: nat, upper: nat)

  /** ArrayIndexOutOfBoundsException (a piece without two bounds) and
      NumberFormatException (a bound that is not a number). */
  datatype RangeError = MissingBound(piece: string) | NotANumber(text: string)

  /** Which of the two rules a sum uses: part 1 (two equal halves) or part 2
      (the rendering reappears inside its own doubling). */
  datatype Rule = Halves | Periodic

  // ---------------------------------------------------------------------------
  // The two rules

  /** isInvalidIdPart1: an even number of digits whose first half matches the
      second half. */
  predicate IsInvalidIdPart1(id: nat)
    ensures IsInvalidIdPart1(id) ==> 10 <= id
  {
    var s := Digits(id);
    |s| % 2 == 0 && RegionMatches(s, 0, s, |s| / 2, |s| / 2)
  }

  /** isInvalidIdPart2: at least two digits, and the rendering S occurs inside
      S + S with its first and last characters removed. */
  predicate IsInvalidIdPart2(id: nat)
    ensures IsInvalidIdPart2(id) ==> 10 <= id
  {
    var s := Digits(id);
    if |s| < 2 then false
    else
      var doubled := s + s;
      Contains(doubled[1..|doubled| - 1], s)
  }

  predicate IsInvalid(rule: Rule, id: nat) {
    match rule
    case Halves => IsInvalidIdPart1(id)
    case Periodic => IsInvalidIdPart2(id)
  }

  /** x written k times in a row. */
  function Repeat(x: string, k: nat): string {
    if k == 0 then [] else x + Repeat(x, k - 1)
  }

  /** s rotated left by p places. */
  function RotateLeft(s: string, p: nat): string
    requires p <= |s|
  {
    s[p..] + s[..p]
  }

  /** Part 1 accepts exactly the ids whose rendering is some block written twice. */
  lemma Part1IsBlockTwice(id: nat)
    ensures IsInvalidIdPart1(id) <==> exists x :: Repeat(x, 2) == Digits(id)
  {
    var s := Digits(id);
    var h := |s| / 2;
    if IsInvalidIdPart1(id) {
      assert s[..h] == s[h..];
      RepeatTwice(s[..h]);
      assert s[..h] + s[h..] == s;
    }
    if x :| Repeat(x, 2) == s {
      RepeatTwice(x);
      assert s[0..|x|] == x && s[|x|..|x| + |x|] == x;
    }
  }

  lemma RepeatTwice(x: string)
    ensures Repeat(x, 2) == x + x
  {
    assert Repeat(x, 1) == x + [] == x;
  }

  /** The window of S + S starting at p is S rotated left by p. */
  lemma DoubledWindow(s: string, p: nat)
    requires p <= |s|
    ensures (s + s)[p..p + |s|] == RotateLeft(s, p)
  {
    assert (s + s)[p..p + |s|] == (s + s)[p..|s|] + (s + s)[|s|..|s| + p];
    assert (s + s)[p..|s|] == s[p..];
    assert (s + s)[|s|..|s| + p] == s[..p];
  }

  lemma Part2GivesRotation(s: string) returns (p: nat)
    requires |s| >= 2 && Contains((s + s)[1..2 * |s| - 1], s)
    ensures 0 < p < |s| && RotateLeft(s, p) == s
  {
    var d := s + s;
    var middle := d[1..|d| - 1];
    var k :| 0 <= k <= |middle| && OccursAt(middle, s, k);
    SliceOfSlice(d, 1, |d| - 1, k, k + |s|);
    DoubledWindow(s, k + 1);
    p := k + 1;
  }

  lemma RotationGivesPart2(s: string, p: nat)
    requires 0 < p < |s| && RotateLeft(s, p) == s
    ensures Contains((s + s)[1..2 * |s| - 1], s)
  {
    var d := s + s;
    var middle := d[1..|d| - 1];
    DoubledWindow(s, p);
    SliceOfSlice(d, 1, |d| - 1, p - 1, p - 1 + |s|);
    assert OccursAt(middle, s, p - 1);
  }

  /** Part 2 accepts exactly the ids of at least two digits whose rendering
      equals one of its non-trivial rotations. */
  lemma Part2IsRotationInvariant(id: nat)
    ensures IsInvalidIdPart2(id) <==>
      id >= 10 && exists p :: 0 < p < |Digits(id)| && RotateLeft(Digits(id), p) == Digits(id)
  {
    var s := Digits(id);
    if |s| >= 2 {
      assert id >= 10;
      if IsInvalidIdPart2(id) {
        var p := Part2GivesRotation(s);
        assert 0 < p < |Digits(id)| && RotateLeft(Digits(id), p) == Digits(id);
      }
      if p :| 0 < p < |s| && RotateLeft(s, p) == s {
        RotationGivesPart2(s, p);
        assert IsInvalidIdPart2(id);
      }
    }
  }

  lemma {:induction false} RepeatCommutes(x: string, k: nat)
    ensures Repeat(x, k) + x == x + Repeat(x, k)
  {
    if k > 0 {
      RepeatCommutes(x, k - 1);
      calc {
        Repeat(x, k) + x;
        x + Repeat(x, k - 1) + x;
        x + (Repeat(x, k - 1) + x);
        x + (x + Repeat(x, k - 1));
        x + Repeat(x, k);
      }
    }
  }

  /** An id whose rendering is a block written two or more times is invalid
      under part 2 (e.g. 11, 1212, 123123). */
  lemma RepeatedBlockIsPart2(id: nat, x: string, k: nat)
    requires k >= 2 && Repeat(x, k) == Digits(id)
    ensures IsInvalidIdPart2(id)
  {
    var s := Digits(id);
    RepeatCommutes(x, k - 1);
    assert s == x + Repeat(x, k - 1);
    assert Repeat(x, k - 1) == x + Repeat(x, k - 2);
    assert x != [] by {
      if x == [] {
        assert Repeat(x, k - 1) == Repeat(x, k - 2);
        RepeatOfEmpty(k);
      }
    }
    assert s[|x|..] == Repeat(x, k - 1) && s[..|x|] == x;
    assert RotateLeft(s, |x|) == s;
    Part2IsRotationInvariant(id);
  }

  lemma {:induction false} RepeatOfEmpty(k: nat)
    ensures Repeat([], k) == []
  {
    if k > 0 {
      RepeatOfEmpty(k - 1);
    }
  }

  /** Every id part 1 accepts, part 2 accepts too. */
  lemma Part1ImpliesPart2(id: nat)
    requires IsInvalidIdPart1(id)
    ensures IsInvalidIdPart2(id)
  {
    Part1IsBlockTwice(id);
    var x :| Repeat(x, 2) == Digits(id);
    RepeatedBlockIsPart2(id, x, 2);
  }

  lemma Part1Examples()
    ensures IsInvalidIdPart1(1212)
    ensures !IsInvalidIdPart1(121)
    ensures !IsInvalidIdPart1(1221)
  {
    assert Digits(1212) == "1212";
    var s := Digits(1221);
    assert s == "1221";
    assert s[0..2][1] != s[2..4][1];
  }

  lemma Part2Examples()
    ensures IsInvalidIdPart2(1212) && IsInvalidIdPart2(121212) && IsInvalidIdPart2(11)
    ensures !IsInvalidIdPart2(123)
  {
    ExampleRenderings();
    assert "1212" == Repeat("12", 2);
    RepeatedBlockIsPart2(1212, "12", 2);
    assert "121212" == Repeat("12", 3);
    RepeatedBlockIsPart2(121212, "12", 3);
    assert "11" == Repeat("1", 2);
    RepeatedBlockIsPart2(11, "1", 2);
    Part2RejectsNoRepeat();
  }

  lemma ExampleRenderings()
    ensures Digits(1212) == "1212" && Digits(121212) == "121212" && Digits(11) == "11"
  {
    assert Digits(1212) == "1212";
    assert Digits(121212) == "121212";
    assert Digits(11) == "11";
  }

  /** Helper for Part2Examples: 123 is not found in "2312". */
  lemma Part2RejectsNoRepeat()
    ensures !IsInvalidIdPart2(123)
  {
    var s := Digits(123);
    assert s == "123";
    var middle := (s + s)[1..5];
    assert middle == "2312";
    assert !OccursAt(middle, s, 0) && !OccursAt(middle, s, 1);
  }

  // ---------------------------------------------------------------------------
  // Sums over ranges

  /** The sum of the ids in lower..upper (inclusive) that the rule rejects. */
  function InvalidSumIn(rule: Rule, lower: nat, upper: int): nat
    decreases upper - lower
  {
    if upper < lower then 0
    else InvalidSumIn(rule, lower, upper - 1) + (if IsInvalid(rule, upper) then upper else 0)
  }

  /** The sum over the ranges in list order; a range listed twice counts twice. */
  function InvalidSum(rule: Rule, ranges: seq<Range>): nat {
    if ranges == [] then 0
    else
      var last := ranges[|ranges| - 1];
      InvalidSum(rule, ranges[..|ranges| - 1]) + InvalidSumIn(rule, last.lower, last.upper)
  }

  /** The sum over a concatenation of lists is the sum of the sums. */
  lemma {:induction false} InvalidSumAppend(rule: Rule, a: seq<Range>, b: seq<Range>)
    ensures InvalidSum(rule, a + b) == InvalidSum(rule, a) + InvalidSum(rule, b)
  {
    if b == [] {
      assert a + b == a;
    } else {
      assert (a + b)[..|a + b| - 1] == a + b[..|b| - 1];
      InvalidSumAppend(rule, a, b[..|b| - 1]);
    }
  }

  /** Ranges are not merged: listing the whole list twice doubles the sum. */
  lemma RepeatedRangesCountTwice(rule: Rule, ranges: seq<Range>)
    ensures InvalidSum(rule, ranges + ranges) == 2 * InvalidSum(rule, ranges)
  {
    InvalidSumAppend(rule, ranges, ranges);
  }

  /** A range whose lower bound exceeds its upper bound adds nothing. */
  lemma InvertedRangeAddsNothing(rule: Rule, ranges: seq<Range>, r: Range)
    requires r.lower > r.upper
    ensures InvalidSum(rule, ranges + [r]) == InvalidSum(rule, ranges)
  {
    assert (ranges + [r])[..|ranges|] == ranges;
  }

  lemma {:induction false} HalvesSumAtMostPeriodicIn(lower: nat, upper: int)
    ensures InvalidSumIn(Halves, lower, upper) <= InvalidSumIn(Periodic, lower, upper)
    decreases upper - lower
  {
    if upper >= lower {
      HalvesSumAtMostPeriodicIn(lower, upper - 1);
      if IsInvalidIdPart1(upper) {
        Part1ImpliesPart2(upper);
      }
    }
  }

  /** The part-1 answer never exceeds the part-2 answer on the same ranges. */
  lemma {:induction false} HalvesSumAtMostPeriodic(ranges: seq<Range>)
    ensures InvalidSum(Halves, ranges) <= InvalidSum(Periodic, ranges)
  {
    if ranges != [] {
      HalvesSumAtMostPeriodic(ranges[..|ranges| - 1]);
      var last := ranges[|ranges| - 1];
      HalvesSumAtMostPeriodicIn(last.lower, last.upper);
    }
  }

  /** computeSumOfInvalidIdsPart1BruteForce: every id of every range is tried. */
  method ComputeSumOfInvalidIdsPart1BruteForce(ranges: seq<Range>) returns (sum: nat)
    ensures sum == InvalidSum(Halves, ranges)
  {
    sum := 0;
    for k := 0 to |ranges|
      invariant sum == InvalidSum(Halves, ranges[..k])
    {
      var range := ranges[k];
      var i := range.lower;
      while i <= range.upper
        invariant range.lower <= i
        invariant i <= range.upper + 1 || i == range.lower
        invariant sum == InvalidSum(Halves, ranges[..k]) + InvalidSumIn(Halves, range.lower, i - 1)
        decreases range.upper + 1 - i
      {
        if IsInvalidIdPart1(i) {
          sum := sum + i;
        }
        i := i + 1;
      }
      assert ranges[..k + 1][..k] == ranges[..k];
    }
    assert ranges[..|ranges|] == ranges;
  }

  /** computeSumOfInvalidIdsPart2BruteForce: the same scan with the part-2 rule. */
  method ComputeSumOfInvalidIdsPart2BruteForce(ranges: seq<Range>) returns (sum: nat)
    ensures sum == InvalidSum(Periodic, ranges)
  {
    sum := 0;
    for k := 0 to |ranges|
      invariant sum == InvalidSum(Periodic, ranges[..k])
    {
      var range := ranges[k];
      var i := range.lower;
      while i <= range.upper
        invariant range.lower <= i
        invariant i <= range.upper + 1 || i == range.lower
        invariant sum == InvalidSum(Periodic, ranges[..k]) + InvalidSumIn(Periodic, range.lower, i - 1)
        decreases range.upper + 1 - i
      {
        if IsInvalidIdPart2(i) {
          sum := sum + i;
        }
        i := i + 1;
      }
      assert ranges[..k + 1][..k] == ranges[..k];
    }
    assert ranges[..|ranges|] == ranges;
  }

  // ---------------------------------------------------------------------------
  // Parsing "a-b,c-d,..."

  /** new BigInteger(text) on a field that holds no '-' (every field it is given
      comes from splitting on '-'): an optional '+' and then one or more digits. */
  function ParseBigInteger(text: string): (r: Option<nat>)
    ensures text != [] && AllDigits(text) ==> r == Some(Value(text))
    ensures r.Some? ==> text != [] && r.value < Pow10(|text|)
    ensures r.Some? <==>
      (text != [] && AllDigits(text)) || (|text| >= 2 && text[0] == '+' && AllDigits(text[1..]))
    ensures r.Some? && text[0] == '+' ==> r.value == Value(text[1..])
  {
    var digits := if text != [] && text[0] == '+' then text[1..] else text;
    if digits != [] && AllDigits(digits) then
      ValueBound(digits);
      Some(Value(digits))
    else None
  }

  /** One comma-separated piece: split on '-', the first two fields are the
      bounds (evaluated left to right, as the constructor call does); further
      fields are ignored. */
  function ParseRange(piece: string): (r: Result<Range, RangeError>)
    ensures var parts := Split(piece, '-');
      r.Ok? <==> |parts| >= 2 && ParseBigInteger(parts[0]).Some? && ParseBigInteger(parts[1]).Some?
    ensures var parts := Split(piece, '-');
      r.Ok? ==> Some(r.value.lower) == ParseBigInteger(parts[0]) && Some(r.value.upper) == ParseBigInteger(parts[1])
    ensures r.Err? && r.error.MissingBound? ==> r.error.piece == piece && |Split(piece, '-')| < 2
  {
    var parts := Split(piece, '-');
    if |parts| == 0 then Err(MissingBound(piece))
    else
      match ParseBigInteger(parts[0])
      case None => Err(NotANumber(parts[0]))
      case Some(lower) =>
        if |parts| == 1 then Err(MissingBound(piece))
        else
          match ParseBigInteger(parts[1])
          case None => Err(NotANumber(parts[1]))
          case Some(upper) => Ok(Range(lower, upper))
  }

  /** The pieces parsed in order; the first failing piece is the error. */
  function RangesOf(pieces: seq<string>): (r: Result<seq<Range>, RangeError>)
    ensures r.Ok? ==> |r.value| == |pieces|
    ensures r.Ok? ==> forall i :: 0 <= i < |pieces| ==> ParseRange(pieces[i]) == Ok(r.value[i])
    ensures r.Err? ==>
      exists i :: 0 <= i < |pieces| && ParseRange(pieces[i]) == Err(r.error) &&
        forall k :: 0 <= k < i ==> ParseRange(pieces[k]).Ok?
  {
    if pieces == [] then Ok([])
    else
      match RangesOf(pieces[..|pieces| - 1])
      case Err(e) =>
        FailureInPrefix(pieces, pieces[..|pieces| - 1], piece => ParseRange(piece) == Err(e), piece => ParseRange(piece).Ok?);
        Err(e)
      case Ok(ranges) =>
        match ParseRange(pieces[|pieces| - 1])
        case Err(e) =>
          FailureAtLast(pieces, pieces[..|pieces| - 1], piece => ParseRange(piece) == Err(e), piece => ParseRange(piece).Ok?);
          Err(e)
        case Ok(r) =>
          PairedSnoc(pieces, ranges, r, (piece, range) => ParseRange(piece) == Ok(range));
          Ok(ranges + [r])
  }

  lemma {:induction false} RangesErrorPersists(pieces: seq<string>, i: nat, j: nat)
    requires i <= j <= |pieces|
    requires RangesOf(pieces[..i]).Err?
    ensures RangesOf(pieces[..j]) == RangesOf(pieces[..i])
    decreases j - i
  {
    if i < j {
      var pre := pieces[..i + 1];
      assert pre[..|pre| - 1] == pieces[..i];
      ErrorOfInitStays(pre);
      RangesErrorPersists(pieces, i + 1, j);
    }
  }

  /** One unfolding of RangesOf when the earlier pieces already failed. */
  lemma ErrorOfInitStays(pieces: seq<string>)
    requires pieces != [] && RangesOf(pieces[..|pieces| - 1]).Err?
    ensures RangesOf(pieces) == RangesOf(pieces[..|pieces| - 1])
  {
  }

  /** One more piece: its error ends the parse, or its range is appended. */
  lemma RangeStep(pieces: seq<string>, i: nat, ranges: seq<Range>)
    requires i < |pieces| && RangesOf(pieces[..i]) == Ok(ranges)
    ensures ParseRange(pieces[i]).Err? ==> RangesOf(pieces) == Err(ParseRange(pieces[i]).error)
    ensures ParseRange(pieces[i]).Ok? ==>
      RangesOf(pieces[..i + 1]) == Ok(ranges + [ParseRange(pieces[i]).value])
  {
    assert pieces[..i + 1][..i] == pieces[..i];
    if ParseRange(pieces[i]).Err? {
      RangesErrorPersists(pieces, i + 1, |pieces|);
      assert pieces[..|pieces|] == pieces;
    }
  }

  /** parseInput: split on ',' and parse every piece, in order. */
  method ParseInput(input: string) returns (r: Result<seq<Range>, RangeError>)
    ensures r == RangesOf(Split(input, ','))
  {
    var pieces := Split(input, ',');
    var ranges: seq<Range> := [];
    for i := 0 to |pieces|
      invariant RangesOf(pieces[..i]) == Ok(ranges)
    {
      var parsed := ParseRange(pieces[i]);
      RangeStep(pieces, i, ranges);
      if parsed.Err? {
        return Err(parsed.error);
      }
      ranges := ranges + [parsed.value];
    }
    assert pieces[..|pieces|] == pieces;
    r := Ok(ranges);
  }

  /** The canonical text of a range, e.g. "11-22". */
  function RenderRange(r: Range): string {
    Digits(r.lower) + "-" + Digits(r.upper)
  }

  /** The canonical text of a list of ranges, comma-separated. */
  function RenderRanges(ranges: seq<Range>): string
    requires |ranges| >= 1
  {
    Join(seq(|ranges|, i requires 0 <= i < |ranges| => RenderRange(ranges[i])), ',')
  }

  lemma ParseBigIntegerOfDigits(n: nat)
    ensures ParseBigInteger(Digits(n)) == Some(n)
  {
    ValueOfDigits(n);
  }

  lemma NoDashInDigits(s: string)
    requires AllDigits(s)
    ensures '-' !in s && ',' !in s
  {
    forall k | 0 <= k < |s| ensures s[k] != '-' && s[k] != ',' {
      assert IsDigitChar(s[k]);
    }
  }

  lemma ParseRenderedRange(r: Range)
    ensures ParseRange(RenderRange(r)) == Ok(r)
  {
    var lo, hi := Digits(r.lower), Digits(r.upper);
    assert Join([lo, hi], '-') == RenderRange(r);
    NoDashInDigits(lo);
    NoDashInDigits(hi);
    SplitOfJoin([lo, hi], '-');
    ParseBigIntegerOfDigits(r.lower);
    ParseBigIntegerOfDigits(r.upper);
  }

  lemma {:induction false} RangesOfRendered(ranges: seq<Range>, pieces: seq<string>)
    requires |pieces| == |ranges|
    requires forall i :: 0 <= i < |pieces| ==> pieces[i] == RenderRange(ranges[i])
    ensures RangesOf(pieces) == Ok(ranges)
  {
    if ranges != [] {
      var init := ranges[..|ranges| - 1];
      var last := ranges[|ranges| - 1];
      RangesOfRendered(init, pieces[..|pieces| - 1]);
      ParseRenderedRange(last);
      assert ParseRange(pieces[|pieces| - 1]) == Ok(last);
      assert RangesOf(pieces) == Ok(init + [last]);
      InitAndLast(ranges);
    }
  }

  /** Rendering a non-empty list of ranges and parsing the text gives the list back. */
  lemma ParseRenderedRanges(ranges: seq<Range>)
    requires |ranges| >= 1
    ensures RangesOf(Split(RenderRanges(ranges), ',')) == Ok(ranges)
  {
    var pieces := seq(|ranges|, i requires 0 <= i < |ranges| => RenderRange(ranges[i]));
    forall i | 0 <= i < |pieces| ensures ',' !in pieces[i] {
      var lo, hi := Digits(ranges[i].lower), Digits(ranges[i].upper);
      NoDashInDigits(lo);
      NoDashInDigits(hi);
      assert pieces[i] == lo + "-" + hi;
    }
    SplitOfJoin(pieces, ',');
    RangesOfRendered(ranges, pieces);
  }
}
