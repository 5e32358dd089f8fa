/** The circular dial of src/main/java/Day01.java: a pointer on positions 0..99,
    starting at 50, turned by commands L<n> and R<n>.  Part 1 counts the commands
    after which the pointer rests on 0; part 2 counts every click at which it
    points at 0, using closed-form division cases that are proved equal to a
    click-by-click count. */
module Dial {
  import opened Wrappers
  import opened Decimal
  import opened Sequences

  const DialStartingValue: int := 50
  const DialModulus: int := 100

  datatype Direction = Left | Right

  /** One parsed command: a direction and a non-negative number of clicks. */
  datatype Rotation = Rotation(dir: Direction, amount: nat)

  /** The IllegalArgumentException raised for a line with no command in it. */
  datatype DialError = InvalidLine(line: string)

  /** The outcome of one part-2 turn: the new position and the zero count. */
  datatype Sweep = Sweep(next: int, zeros: nat)

  // ---------------------------------------------------------------------------
  // Java long arithmetic

  /** Java's `/` on long: the quotient truncated toward zero.  Every division
      of the dial has a non-negative dividend (a position in range plus clicks,
      or an absolute value), where it agrees with `/` on nat; the negative
      branch only completes Java's definition. */
  function JavaDiv(a: int, m: int): int
    requires m > 0
  {
    if a >= 0 then a / m else -((-a) / m)
  }

  /** Java's `%` on long: the remainder takes the sign of the dividend. */
  function JavaRem(a: int, m: int): int
    requires m > 0
  {
    if a >= 0 then a % m else -((-a) % m)
  }

  /** The idiom ((x % M) + M) % M, which always lands on a dial position; it
      coincides with the Euclidean (non-negative) remainder. */
  function WrapToDial(x: int): (r: int)
    ensures 0 <= r < DialModulus
    ensures r == x % DialModulus
  {
    JavaRem(JavaRem(x, DialModulus) + DialModulus, DialModulus)
  }

  function Abs(x: int): nat {
    if x < 0 then -x else x
  }

  // ---------------------------------------------------------------------------
  // One command

  /** The signed number of clicks: negative for Left, positive for Right. */
  function Displacement(rot: Rotation): int {
    if rot.dir == Left then -(rot.amount as int) else rot.amount
  }

  /** The part-1 turn: where the pointer rests after rot, from any start. */
  function Turn(cur: int, rot: Rotation): (next: int)
    ensures 0 <= next < DialModulus
    ensures next == (cur + Displacement(rot)) % DialModulus
  {
    match rot.dir
    case Left => WrapToDial(cur - rot.amount)
    case Right => WrapToDial(cur + rot.amount)
  }

  /** The part-2 turn: the new position and the closed-form count of the times
      the pointer is at 0 during the turn. */
  function TurnCounting(cur: int, rot: Rotation): (s: Sweep)
    requires 0 <= cur < DialModulus
    ensures 0 <= s.next < DialModulus && s.next == Turn(cur, rot)
  {
    match rot.dir
    case Left =>
      var raw := cur - rot.amount;
      var zeros :=
        if cur == 0 then JavaDiv(rot.amount, DialModulus)
        else if raw >= 0 then (if raw == 0 then 1 else 0)
        else 1 + JavaDiv(Abs(raw), DialModulus);
      Sweep(WrapToDial(raw), zeros)
    case Right =>
      var raw := cur + rot.amount;
      Sweep(JavaRem(raw, DialModulus), JavaDiv(raw, DialModulus))
  }

  /** Where the pointer is, before reduction, after k single clicks. */
  function Offset(cur: int, d: Direction, k: nat): int {
    if d == Left then cur - k else cur + k
  }

  /** The reference count: the clicks k in 1..n after which the pointer is at 0. */
  function StepZeros(cur: int, d: Direction, n: nat): nat {
    if n == 0 then 0
    else StepZeros(cur, d, n - 1) + (if Offset(cur, d, n) % DialModulus == 0 then 1 else 0)
  }

  lemma DivStep(x: int)
    requires x >= 0
    ensures (x + 1) / DialModulus == x / DialModulus + (if (x + 1) % DialModulus == 0 then 1 else 0)
  {
  }

  lemma NegModZero(x: int)
    ensures (-x) % DialModulus == 0 <==> x % DialModulus == 0
  {
    if x % DialModulus == 0 {
      assert -x == DialModulus * (-(x / DialModulus));
    }
    if (-x) % DialModulus == 0 {
      assert x == DialModulus * (-((-x) / DialModulus));
    }
  }

  /** Turning right from cur by n clicks meets 0 exactly (cur + n) / 100 times. */
  lemma {:induction false} RightZeros(cur: int, n: nat)
    requires 0 <= cur < DialModulus
    ensures StepZeros(cur, Right, n) == (cur + n) / DialModulus
  {
    if n > 0 {
      RightZeros(cur, n - 1);
      DivStep(cur + n - 1);
    }
  }

  /** Turning left from 0 by n clicks meets 0 exactly n / 100 times. */
  lemma {:induction false} LeftZerosFromZero(n: nat)
    ensures StepZeros(0, Left, n) == n / DialModulus
  {
    if n > 0 {
      LeftZerosFromZero(n - 1);
      DivStep(n - 1);
      NegModZero(n);
    }
  }

  /** Turning left from a non-zero cur meets 0 first after cur clicks and then
      once every further 100 clicks. */
  lemma {:induction false} LeftZerosFromNonZero(cur: int, n: nat)
    requires 0 < cur < DialModulus
    ensures StepZeros(cur, Left, n) == if n < cur then 0 else 1 + (n - cur) / DialModulus
  {
    if n > 0 {
      LeftZerosFromNonZero(cur, n - 1);
      if n < cur {
        assert 0 < cur - n < DialModulus;
      } else if n > cur {
        DivStep(n - 1 - cur);
        NegModZero(n - cur);
      }
    }
  }

  /** The part-2 closed forms are exact: from any dial position the part-2 turn
      lands where the part-1 turn lands, and its count equals the click-by-click
      count of the times the pointer is at 0. */
  lemma CountingMatchesUnitSteps(cur: int, rot: Rotation)
    requires 0 <= cur < DialModulus
    ensures TurnCounting(cur, rot) == Sweep(Turn(cur, rot), StepZeros(cur, rot.dir, rot.amount))
  {
    match rot.dir
    case Left =>
      if cur == 0 {
        LeftZerosFromZero(rot.amount);
      } else {
        LeftZerosFromNonZero(cur, rot.amount);
      }
    case Right =>
      RightZeros(cur, rot.amount);
  }

  /** A command of at least one click that ends on 0 has pointed at 0. */
  lemma LandingIsACrossing(cur: int, rot: Rotation)
    requires rot.amount > 0 && Turn(cur, rot) == 0
    ensures StepZeros(cur, rot.dir, rot.amount) >= 1
  {
    assert Offset(cur, rot.dir, rot.amount) == cur + Displacement(rot);
  }

  // ---------------------------------------------------------------------------
  // Parsing a line against ([LR])(\d+) with an unanchored find()

  predicate IsDirectionChar(c: char) {
    c == 'L' || c == 'R'
  }

  /** The pattern matches starting at position i. */
  predicate MatchAt(line: string, i: int) {
    0 <= i && i + 1 < |line| && IsDirectionChar(line[i]) && IsDigitChar(line[i + 1])
  }

  /** The longest run of digits at the start of s (the greedy \d+). */
  function DigitRun(s: string): (r: string)
    ensures |r| <= |s| && r == s[..|r|] && AllDigits(r)
    ensures |r| < |s| ==> !IsDigitChar(s[|r|])
  {
    if s != [] && IsDigitChar(s[0]) then [s[0]] + DigitRun(s[1..]) else []
  }

  /** The command that the match at position i denotes. */
  function RotationAt(line: string, i: int): Rotation
    requires MatchAt(line, i)
  {
    Rotation(if line[i] == 'L' then Left else Right, Value(DigitRun(line[i + 1..])))
  }

  /** The first match at or after position i, if there is one. */
  function FindRotationFrom(line: string, i: nat): (r: Option<Rotation>)
    requires i <= |line|
    ensures r.None? <==> forall j :: i <= j < |line| ==> !MatchAt(line, j)
    decreases |line| - i
  {
    if i == |line| then None
    else if MatchAt(line, i) then Some(RotationAt(line, i))
    else FindRotationFrom(line, i + 1)
  }

  /** matcher.find() followed by reading its two groups. */
  function FindRotation(line: string): (r: Option<Rotation>)
    ensures r.None? <==> forall j :: 0 <= j < |line| ==> !MatchAt(line, j)
  {
    FindRotationFrom(line, 0)
  }

  /** The lines parsed in order; the first line with no match is the error. */
  function ParseRotations(lines: seq<string>): (r: Result<seq<Rotation>, DialError>)
    ensures r.Ok? ==> |r.value| == |lines|
    ensures r.Ok? ==> forall i :: 0 <= i < |lines| ==> FindRotation(lines[i]) == Some(r.value[i])
    ensures r.Err? ==>
      exists i :: 0 <= i < |lines| && r.error == InvalidLine(lines[i]) &&
        FindRotation(lines[i]).None? && forall k :: 0 <= k < i ==> FindRotation(lines[k]).Some?
  {
    if lines == [] then Ok([])
    else
      match ParseRotations(lines[..|lines| - 1])
      case Err(e) => Err(e)
      case Ok(rots) =>
        match FindRotation(lines[|lines| - 1])
        case None => Err(InvalidLine(lines[|lines| - 1]))
        case Some(rot) => Ok(rots + [rot])
  }

  /** The canonical text of a command, e.g. "L68". */
  function Render(rot: Rotation): string {
    [if rot.dir == Left then 'L' else 'R'] + Digits(rot.amount)
  }

  lemma {:induction false} DigitRunOfDigits(d: string, tail: string)
    requires AllDigits(d)
    requires tail == [] || !IsDigitChar(tail[0])
    ensures DigitRun(d + tail) == d
    decreases |d|
  {
    if d == [] {
      assert d + tail == tail;
    } else {
      assert (d + tail)[1..] == d[1..] + tail;
      DigitRunOfDigits(d[1..], tail);
      assert [d[0]] + d[1..] == d;
    }
  }

  lemma {:induction false} FindSkips(line: string, i: nat, j: nat)
    requires i <= j <= |line|
    requires forall k :: i <= k < j ==> !MatchAt(line, k)
    ensures FindRotationFrom(line, i) == FindRotationFrom(line, j)
    decreases j - i
  {
    if i < j {
      assert !MatchAt(line, i);
      FindSkips(line, i + 1, j);
    }
  }

  /** find() reports the leftmost match, wherever it is in the line. */
  lemma FirstMatchWins(line: string, j: nat)
    requires MatchAt(line, j)
    requires forall k :: 0 <= k < j ==> !MatchAt(line, k)
    ensures FindRotation(line) == Some(RotationAt(line, j))
  {
    FindSkips(line, 0, j);
  }

  /** The search is unanchored: a command is found after any text free of L and
      R, provided what follows it does not continue its digits. */
  lemma FindRotationInLine(junk: string, rot: Rotation, tail: string)
    requires forall k :: 0 <= k < |junk| ==> !IsDirectionChar(junk[k])
    requires tail == [] || !IsDigitChar(tail[0])
    ensures FindRotation(junk + Render(rot) + tail) == Some(rot)
  {
    var line := junk + Render(rot) + tail;
    var d := Digits(rot.amount);
    assert line == junk + ([line[|junk|]] + (d + tail));
    FindSkips(line, 0, |junk|);
    assert MatchAt(line, |junk|);
    assert line[|junk| + 1..] == d + tail;
    DigitRunOfDigits(d, tail);
    ValueOfDigits(rot.amount);
  }

  /** Rendering commands one per line and parsing them gives them back. */
  lemma {:induction false} ParseRendered(rots: seq<Rotation>, lines: seq<string>)
    requires |lines| == |rots|
    requires forall i :: 0 <= i < |lines| ==> lines[i] == Render(rots[i])
    ensures ParseRotations(lines) == Ok(rots)
  {
    if rots != [] {
      var init := rots[..|rots| - 1];
      var last := rots[|rots| - 1];
      ParseRendered(init, lines[..|lines| - 1]);
      FindRotationInLine([], last, []);
      assert [] + Render(last) + [] == lines[|lines| - 1];
      assert ParseRotations(lines) == Ok(init + [last]);
      InitAndLast(rots);
    }
  }

  /** Once a prefix of the lines fails to parse, every longer prefix fails with
      the same error. */
  lemma {:induction false} ParseErrorPersists(lines: seq<string>, i: nat, j: nat)
    requires i <= j <= |lines|
    requires ParseRotations(lines[..i]).Err?
    ensures ParseRotations(lines[..j]) == ParseRotations(lines[..i])
    decreases j - i
  {
    if i < j {
      assert lines[..i + 1][..i] == lines[..i];
      ParseErrorPersists(lines, i + 1, j);
    }
  }

  // ---------------------------------------------------------------------------
  // Whole runs

  /** The dial position after all the commands, from the starting value. */
  function DialAfter(rots: seq<Rotation>): (v: int)
    ensures 0 <= v < DialModulus
  {
    if rots == [] then DialStartingValue
    else Turn(DialAfter(rots[..|rots| - 1]), rots[|rots| - 1])
  }

  /** Part 1's answer: the commands after which the pointer rests on 0. */
  function LandingCount(rots: seq<Rotation>): nat {
    if rots == [] then 0
    else LandingCount(rots[..|rots| - 1]) + (if DialAfter(rots) == 0 then 1 else 0)
  }

  /** Part 2's answer by the reference: every click that leaves the pointer on 0. */
  function ZeroClicks(rots: seq<Rotation>): nat {
    if rots == [] then 0
    else
      var last := rots[|rots| - 1];
      ZeroClicks(rots[..|rots| - 1]) + StepZeros(DialAfter(rots[..|rots| - 1]), last.dir, last.amount)
  }

  function NetDisplacement(rots: seq<Rotation>): int {
    if rots == [] then 0
    else NetDisplacement(rots[..|rots| - 1]) + Displacement(rots[|rots| - 1])
  }

  lemma ModAdd(a: int, b: int)
    ensures (a % DialModulus + b) % DialModulus == (a + b) % DialModulus
  {
    var q := a / DialModulus;
    assert a % DialModulus + b == (a + b) + DialModulus * (-q);
    ModShift(a + b, -q);
  }

  lemma ModShift(x: int, q: int)
    ensures (x + DialModulus * q) % DialModulus == x % DialModulus
  {
    var y := x + DialModulus * q;
    assert y == DialModulus * (x / DialModulus + q) + x % DialModulus;
  }

  /** The final position depends only on the net signed number of clicks. */
  lemma {:induction false} FinalPosition(rots: seq<Rotation>)
    ensures DialAfter(rots) == (DialStartingValue + NetDisplacement(rots)) % DialModulus
  {
    if rots != [] {
      var init := rots[..|rots| - 1];
      FinalPosition(init);
      ModAdd(DialStartingValue + NetDisplacement(init), Displacement(rots[|rots| - 1]));
    }
  }

  /** With no zero-click command, part 2 counts at least every landing part 1 counts. */
  lemma {:induction false} LandingsAreCrossings(rots: seq<Rotation>)
    requires forall i :: 0 <= i < |rots| ==> rots[i].amount > 0
    ensures LandingCount(rots) <= ZeroClicks(rots)
  {
    if rots != [] {
      var init := rots[..|rots| - 1];
      LandingsAreCrossings(init);
      if DialAfter(rots) == 0 {
        LandingIsACrossing(DialAfter(init), rots[|rots| - 1]);
      }
    }
  }

  /** A zero-click command while resting on 0 counts in part 1 but not in part 2:
      after L50 and R0 part 1 reports 2 and part 2 reports 1. */
  lemma ZeroClickCommandCountsOnlyForLanding()
    ensures var rots := [Rotation(Left, 50), Rotation(Right, 0)];
      LandingCount(rots) == 2 && ZeroClicks(rots) == 1
  {
    var rots := [Rotation(Left, 50), Rotation(Right, 0)];
    assert rots[..1] == [Rotation(Left, 50)];
    assert rots[..1][..0] == [];
    assert DialAfter(rots[..1]) == 0;
    assert DialAfter(rots) == 0;
    assert LandingCount(rots[..1]) == 1;
    LeftZerosFromNonZero(50, 50);
    assert ZeroClicks(rots[..1]) == 1;
  }

  /** The lines R68 and L30 parse to the two commands they spell. */
  lemma WorkedExampleParses()
    ensures ParseRotations(["R68", "L30"]) == Ok([Rotation(Right, 68), Rotation(Left, 30)])
  {
    var rots := [Rotation(Right, 68), Rotation(Left, 30)];
    ExampleRendersAsText();
    ParseRendered(rots, ["R68", "L30"]);
  }

  lemma ExampleRendersAsText()
    ensures Render(Rotation(Right, 68)) == "R68" && Render(Rotation(Left, 30)) == "L30"
  {
    assert Digits(68) == "68";
    assert Digits(30) == "30";
  }

  /** R68 then L30 from 50: never resting on 0, but pointing at it twice. */
  lemma WorkedExampleCounts()
    ensures LandingCount([Rotation(Right, 68), Rotation(Left, 30)]) == 0
    ensures ZeroClicks([Rotation(Right, 68), Rotation(Left, 30)]) == 2
  {
    var rots := [Rotation(Right, 68), Rotation(Left, 30)];
    assert rots[..1] == [Rotation(Right, 68)];
    assert rots[..1][..0] == [];
    assert DialAfter(rots[..1]) == 18;
    assert DialAfter(rots) == 88;
    RightZeros(50, 68);
    LeftZerosFromNonZero(18, 30);
  }

  /** The part-2 running total never decreases as commands are added. */
  lemma {:induction false} ZeroClicksMonotone(rots: seq<Rotation>, i: nat)
    requires i <= |rots|
    ensures ZeroClicks(rots[..i]) <= ZeroClicks(rots)
    decreases |rots| - i
  {
    if i < |rots| {
      ZeroClicksMonotone(rots, i + 1);
      assert rots[..i + 1][..i] == rots[..i];
    } else {
      assert rots[..i] == rots;
    }
  }

  // ---------------------------------------------------------------------------
  // The two solvers

  /** One more line: its command extends the parsed prefix, or its failure is
      the outcome of the whole parse. */
  lemma ParseStep(lines: seq<string>, i: nat, rots: seq<Rotation>)
    requires i < |lines| && ParseRotations(lines[..i]) == Ok(rots)
    ensures FindRotation(lines[i]).None? ==> ParseRotations(lines) == Err(InvalidLine(lines[i]))
    ensures FindRotation(lines[i]).Some? ==>
      ParseRotations(lines[..i + 1]) == Ok(rots + [FindRotation(lines[i]).value])
  {
    assert lines[..i + 1][..i] == lines[..i];
    if FindRotation(lines[i]).None? {
      ParseErrorPersists(lines, i + 1, |lines|);
      assert lines[..|lines|] == lines;
    }
  }

  /** One more command: the pointer turns, and each count grows by that turn's share. */
  lemma RunStep(rots: seq<Rotation>, rot: Rotation)
    ensures DialAfter(rots + [rot]) == Turn(DialAfter(rots), rot)
    ensures LandingCount(rots + [rot]) ==
      LandingCount(rots) + (if Turn(DialAfter(rots), rot) == 0 then 1 else 0)
    ensures ZeroClicks(rots + [rot]) ==
      ZeroClicks(rots) + StepZeros(DialAfter(rots), rot.dir, rot.amount)
  {
    assert (rots + [rot])[..|rots|] == rots;
  }

  /** computePasswordPart1: the landing count, or the first unparsable line. */
  method ComputePasswordPart1(lines: seq<string>) returns (r: Result<nat, DialError>)
    ensures ParseRotations(lines).Err? ==> r == Err(ParseRotations(lines).error)
    ensures ParseRotations(lines).Ok? ==> r == Ok(LandingCount(ParseRotations(lines).value))
  {
    var currentValue := DialStartingValue;
    var currentPassword := 0;
    ghost var rots: seq<Rotation> := [];
    for i := 0 to |lines|
      invariant ParseRotations(lines[..i]) == Ok(rots)
      invariant currentValue == DialAfter(rots)
      invariant currentPassword == LandingCount(rots)
    {
      var found := FindRotation(lines[i]);
      ParseStep(lines, i, rots);
      if found.None? {
        return Err(InvalidLine(lines[i]));
      }
      RunStep(rots, found.value);
      currentValue := Turn(currentValue, found.value);
      rots := rots + [found.value];
      if currentValue == 0 {
        currentPassword := currentPassword + 1;
      }
    }
    assert lines[..|lines|] == lines;
    r := Ok(currentPassword);
  }

  /** computePasswordPart2: the closed-form zero counts summed, which equal the
      click-by-click count; or the first unparsable line. */
  method ComputePasswordPart2(lines: seq<string>) returns (r: Result<nat, DialError>)
    ensures ParseRotations(lines).Err? ==> r == Err(ParseRotations(lines).error)
    ensures ParseRotations(lines).Ok? ==> r == Ok(ZeroClicks(ParseRotations(lines).value))
  {
    var currentValue := DialStartingValue;
    var currentPassword := 0;
    ghost var rots: seq<Rotation> := [];
    for i := 0 to |lines|
      invariant ParseRotations(lines[..i]) == Ok(rots)
      invariant currentValue == DialAfter(rots)
      invariant currentPassword == ZeroClicks(rots)
    {
      var found := FindRotation(lines[i]);
      ParseStep(lines, i, rots);
      if found.None? {
        return Err(InvalidLine(lines[i]));
      }
      RunStep(rots, found.value);
      var sweep := TurnCounting(currentValue, found.value);
      CountingMatchesUnitSteps(currentValue, found.value);
      currentValue := sweep.next;
      rots := rots + [found.value];
      if sweep.zeros > 0 {
        currentPassword := currentPassword + sweep.zeros;
      }
    }
    assert lines[..|lines|] == lines;
    r := Ok(currentPassword);
  }
}
