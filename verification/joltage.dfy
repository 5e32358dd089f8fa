/** The battery banks of src/main/java/Day03.java: each bank is a line of
    digits; a bank's joltage is the largest number formed by K of its digits
    taken in order (K = 2 for part 1, K = 12 for part 2), found greedily by
    picking the leftmost largest digit in a shrinking window. */
module Joltage {
  import opened Wrappers
  import opened Decimal
  import opened JavaText
  import opened Sequences

  type Digit = d: int | 0 <= d <= 9

  /** The record invariant: a bank holds at least two batteries. */
  type Batteries = s: seq<Digit> | |s| >= 2 witness [0, 0]

  datatype BatteryBank = BatteryBank(batteries: Batteries)

  /** NUM_DIGITS of part 2. */
  const Part2Digits: nat := 12

  /** NumberFormatException (a piece that is not a digit), the record's
      IllegalArgumentException, and part 2's IllegalArgumentException. */
  datatype BankError = NotANumber(piece: string) | TooFewBatteries | FewerThanPart2Digits

  /** The validating record constructor. */
  function NewBatteryBank(batteries: seq<Digit>): (r: Result<BatteryBank, BankError>)
    ensures r.Ok? <==> |batteries| >= 2
    ensures r.Ok? ==> r.value.batteries == batteries
    ensures r.Err? ==> r.error == TooFewBatteries
  {
    if |batteries| < 2 then Err(TooFewBatteries) else Ok(BatteryBank(batteries))
  }

  // ---------------------------------------------------------------------------
  // Digits as numbers

  /** The digits written side by side. */
  function DigitString(ds: seq<Digit>): (s: string)
    ensures |s| == |ds| && AllDigits(s)
    ensures forall i :: 0 <= i < |ds| ==> s[i] == DigitChar(ds[i])
  {
    seq(|ds|, i requires 0 <= i < |ds| => DigitChar(ds[i]))
  }

  /** The number the digits denote when written side by side. */
  function Joltage(ds: seq<Digit>): nat {
    Value(DigitString(ds))
  }

  /** Writing one more digit multiplies by ten and adds it. */
  lemma JoltageSnoc(ds: seq<Digit>, d: Digit)
    ensures Joltage(ds + [d]) == 10 * Joltage(ds) + d
  {
    var s := DigitString(ds + [d]);
    assert s[..|s| - 1] == DigitString(ds);
  }

  /** K digits denote a number below 10^K. */
  lemma JoltageBound(ds: seq<Digit>)
    ensures Joltage(ds) < Pow10(|ds|)
  {
    ValueBound(DigitString(ds));
  }

  lemma TwoDigitJoltage(x: Digit, y: Digit)
    ensures Joltage([x, y]) == 10 * (x as int) + y
  {
    assert Joltage([]) == 0;
    JoltageSnoc([], x);
    assert [] + [x] == [x];
    JoltageSnoc([x], y);
    assert [x] + [y] == [x, y];
  }

  // ---------------------------------------------------------------------------
  // The greedy selection

  /** The index of the leftmost largest digit among positions lo..hi-1: the
      scan that replaces the candidate only on a strictly larger digit. */
  function LeftmostMax(b: seq<Digit>, lo: nat, hi: nat): (k: nat)
    requires lo < hi <= |b|
    ensures lo <= k < hi
    decreases hi
  {
    if hi == lo + 1 then lo
    else
      var k := LeftmostMax(b, lo, hi - 1);
      if b[hi - 1] > b[k] then hi - 1 else k
  }

  /** Position k holds a largest digit of the window lo..hi-1, and every digit
      before it in the window is strictly smaller. */
  predicate IsLeftmostMaximum(b: seq<Digit>, lo: nat, hi: nat, k: nat)
    requires hi <= |b|
  {
    lo <= k < hi
    && (forall j :: lo <= j < hi ==> b[j] <= b[k])
    && (forall j :: lo <= j < k ==> b[j] < b[k])
  }

  /** The scan finds the leftmost largest digit of its window. */
  lemma {:induction false} LeftmostMaxIsLeftmostMaximum(b: seq<Digit>, lo: nat, hi: nat)
    requires lo < hi <= |b|
    ensures IsLeftmostMaximum(b, lo, hi, LeftmostMax(b, lo, hi))
    decreases hi
  {
    if hi > lo + 1 {
      LeftmostMaxIsLeftmostMaximum(b, lo, hi - 1);
    }
  }

  /** The first i indices the greedy selection of K digits picks: pick number
      j (from 0) is the leftmost largest digit of the window from just after
      pick j-1 (from 0 for j = 0) up to, but excluding, |b| - (K - 1 - j). */
  function Picks(b: seq<Digit>, K: nat, i: nat): (p: seq<nat>)
    requires K <= |b| && i <= K
    ensures |p| == i
    ensures forall j :: 0 <= j < i ==> p[j] <= |b| - K + j
    decreases |b|, i
  {
    if i == 0 then []
    else
      var prev := Picks(b, K, i - 1);
      var lo := if i == 1 then 0 else prev[i - 2] + 1;
      prev + [LeftmostMax(b, lo, |b| - (K - i))]
  }

  /** The greedy picks are strictly increasing positions. */
  lemma {:induction false} PicksIncrease(b: seq<Digit>, K: nat, i: nat)
    requires K <= |b| && i <= K
    ensures forall j, k :: 0 <= j < k < i ==> Picks(b, K, i)[j] < Picks(b, K, i)[k]
    decreases i
  {
    if i > 1 {
      PicksIncrease(b, K, i - 1);
      var prev := Picks(b, K, i - 1);
      var p := Picks(b, K, i);
      assert p == prev + [p[i - 1]];
      assert prev[i - 2] < p[i - 1];
      forall j, k | 0 <= j < k < i ensures p[j] < p[k] {
        if k < i - 1 {
          assert p[j] == prev[j] && p[k] == prev[k];
        } else if j < i - 2 {
          assert p[j] == prev[j] < prev[i - 2];
        }
      }
    }
  }

  /** K strictly increasing positions of a bank of n digits. */
  predicate IsSelection(sel: seq<nat>, n: nat, K: nat) {
    |sel| == K
    && (forall j :: 0 <= j < K ==> sel[j] < n)
    && (forall j, k :: 0 <= j < k < K ==> sel[j] < sel[k])
  }

  /** The digits at the given positions, in order. */
  function Selected(b: seq<Digit>, sel: seq<nat>): (ds: seq<Digit>)
    requires forall j :: 0 <= j < |sel| ==> sel[j] < |b|
    ensures |ds| == |sel|
  {
    seq(|sel|, j requires 0 <= j < |sel| => b[sel[j]])
  }

  /** The joltage the greedy selection of K digits produces. */
  function GreedyJoltage(b: seq<Digit>, K: nat): (v: nat)
    requires K <= |b|
    ensures v < Pow10(K)
  {
    var p := Picks(b, K, K);
    JoltageBound(Selected(b, p));
    Joltage(Selected(b, p))
  }

  /** Each greedy pick lies after the previous one, leaves room for the picks
      still to come, and is the leftmost largest digit of its window. */
  lemma PicksAreLeftmostMaxima(b: seq<Digit>, K: nat, j: nat)
    requires j < K <= |b|
    ensures var p := Picks(b, K, K);
      var lo := if j == 0 then 0 else p[j - 1] + 1;
      IsLeftmostMaximum(b, lo, |b| - (K - 1 - j), p[j])
  {
    var p := Picks(b, K, K);
    var q := Picks(b, K, j + 1);
    PicksPrefix(b, K, j + 1, K);
    var hi := |b| - (K - 1 - j);
    PickAt(b, K, j);
    assert p[j] == q[j];
    var lo;
    if j == 0 {
      lo := 0;
    } else {
      assert Picks(b, K, j)[j - 1] == q[j - 1] == p[j - 1];
      lo := p[j - 1] + 1;
    }
    assert p[j] == LeftmostMax(b, lo, hi);
    LeftmostMaxIsLeftmostMaximum(b, lo, hi);
  }

  /** Pick j is the leftmost maximum of the window after pick j - 1. */
  lemma PickAt(b: seq<Digit>, K: nat, j: nat)
    requires j < K <= |b|
    ensures j == 0 ==> Picks(b, K, j + 1)[j] == LeftmostMax(b, 0, |b| - (K - 1 - j))
    ensures j > 0 ==>
      Picks(b, K, j + 1)[j] == LeftmostMax(b, Picks(b, K, j)[j - 1] + 1, |b| - (K - 1 - j))
  {
  }

  lemma {:induction false} PicksPrefix(b: seq<Digit>, K: nat, i: nat, i': nat)
    requires K <= |b| && i <= i' <= K
    ensures Picks(b, K, i) == Picks(b, K, i')[..i]
    decreases i' - i
  {
    if i < i' {
      PicksPrefix(b, K, i, i' - 1);
    } else {
      assert Picks(b, K, i')[..i] == Picks(b, K, i');
    }
  }

  /** In a selection, position j leaves room for the K - 1 - j positions after it. */
  lemma {:induction false} SelectionBound(sel: seq<nat>, n: nat, K: nat, j: nat)
    requires IsSelection(sel, n, K) && j < K
    ensures sel[j] <= n - K + j
    decreases K - j
  {
    if j < K - 1 {
      SelectionBound(sel, n, K, j + 1);
    }
  }

  lemma SelectedSnoc(b: seq<Digit>, sel: seq<nat>, x: nat)
    requires forall j :: 0 <= j < |sel| ==> sel[j] < |b|
    requires x < |b|
    ensures Selected(b, sel + [x]) == Selected(b, sel) + [b[x]]
  {
  }

  /** The exchange argument, one pick at a time: after i picks the greedy
      prefix denotes a larger number than the first i digits of any selection,
      or the same number with the greedy pick no further right. */
  lemma {:induction false} GreedyDominatesPrefix(b: seq<Digit>, K: nat, sel: seq<nat>, i: nat)
    requires K <= |b| && IsSelection(sel, |b|, K) && i <= K
    ensures var p := Picks(b, K, i);
      var js := Joltage(Selected(b, sel[..i]));
      var jp := Joltage(Selected(b, p));
      js < jp || (js == jp && (i > 0 ==> p[i - 1] <= sel[i - 1]))
  {
    if i == 0 {
      assert Selected(b, sel[..0]) == [] == Selected(b, Picks(b, K, 0));
    } else {
      GreedyDominatesPrefix(b, K, sel, i - 1);
      var prev := Picks(b, K, i - 1);
      var p := Picks(b, K, i);
      var m := p[i - 1];
      var x := sel[i - 1];
      var js' := Joltage(Selected(b, sel[..i - 1]));
      var jp' := Joltage(Selected(b, prev));
      assert sel[..i] == sel[..i - 1] + [x];
      assert p == prev + [m];
      SelectedSnoc(b, sel[..i - 1], x);
      SelectedSnoc(b, prev, m);
      JoltageSnoc(Selected(b, sel[..i - 1]), b[x]);
      JoltageSnoc(Selected(b, prev), b[m]);
      if js' == jp' {
        GreedyPickBeatsSelection(b, K, sel, i);
      }
      NextDigitDominates(js', jp', b[x], b[m], x, m);
    }
  }

  /** When the greedy picks so far end no further right than the selection's,
      the next greedy digit is at least the selection's next digit, and on a
      tie it lies no further right. */
  lemma GreedyPickBeatsSelection(b: seq<Digit>, K: nat, sel: seq<nat>, i: nat)
    requires K <= |b| && IsSelection(sel, |b|, K) && 0 < i <= K
    requires i > 1 ==> Picks(b, K, i - 1)[i - 2] <= sel[i - 2]
    ensures var m := Picks(b, K, i)[i - 1];
      var x := sel[i - 1];
      b[x] <= b[m] && (b[x] == b[m] ==> m <= x)
  {
    var m := Picks(b, K, i)[i - 1];
    var x := sel[i - 1];
    var hi := |b| - (K - 1 - (i - 1));
    PickAt(b, K, i - 1);
    var lo;
    if i == 1 {
      lo := 0;
    } else {
      lo := Picks(b, K, i - 1)[i - 2] + 1;
      assert sel[i - 2] < x;
    }
    assert m == LeftmostMax(b, lo, hi);
    SelectionBound(sel, |b|, K, i - 1);
    LeftmostMaxIsLeftmostMaximum(b, lo, hi);
    assert IsLeftmostMaximum(b, lo, hi, m);
  }

  /** Appending one digit to each of two numbers keeps the order of the first
      comparison, and breaks a tie by the digits. */
  lemma NextDigitDominates(js: nat, jp: nat, dx: Digit, dm: Digit, x: nat, m: nat)
    requires js < jp || (js == jp && dx <= dm && (dx == dm ==> m <= x))
    ensures 10 * js + dx < 10 * jp + dm || (10 * js + dx == 10 * jp + dm && m <= x)
  {
  }

  /** The greedy selection is optimal: no K strictly increasing positions give
      a larger number. */
  lemma GreedyIsOptimal(b: seq<Digit>, K: nat, sel: seq<nat>)
    requires K <= |b| && IsSelection(sel, |b|, K)
    ensures Joltage(Selected(b, sel)) <= GreedyJoltage(b, K)
  {
    GreedyDominatesPrefix(b, K, sel, K);
    assert sel[..K] == sel;
  }

  /** The greedy joltage bounds every selection's and fits in K digits. */
  lemma GreedyIsMaximum(b: seq<Digit>, K: nat)
    requires K <= |b|
    ensures forall sel :: IsSelection(sel, |b|, K) ==> Joltage(Selected(b, sel)) <= GreedyJoltage(b, K)
    ensures GreedyJoltage(b, K) < Pow10(K)
  {
    forall sel | IsSelection(sel, |b|, K)
      ensures Joltage(Selected(b, sel)) <= GreedyJoltage(b, K)
    {
      GreedyIsOptimal(b, K, sel);
    }
    GreedyIsSelection(b, K);
  }

  /** The greedy picks are themselves a selection, so the optimum is attained. */
  lemma GreedyIsSelection(b: seq<Digit>, K: nat)
    requires K <= |b|
    ensures IsSelection(Picks(b, K, K), |b|, K)
    ensures GreedyJoltage(b, K) < Pow10(K)
  {
    PicksIncrease(b, K, K);
    JoltageBound(Selected(b, Picks(b, K, K)));
  }

  lemma Pow10Of12()
    ensures Pow10(Part2Digits) == 1_000_000_000_000
  {
    assert Pow10(4) == 10_000;
    assert Pow10(8) == 100_000_000;
  }

  /** When the bank has exactly K digits, the only choice is the whole bank. */
  lemma {:induction false} PicksOfFullBank(b: seq<Digit>, i: nat)
    requires i <= |b|
    ensures Picks(b, |b|, i) == seq(i, j => j)
  {
    if i > 0 {
      PicksOfFullBank(b, i - 1);
      assert seq(i - 1, j => j) + [i - 1] == seq(i, j => j);
    }
  }

  lemma FullBankIsItself(b: seq<Digit>)
    ensures GreedyJoltage(b, |b|) == Joltage(b)
  {
    PicksOfFullBank(b, |b|);
    assert Selected(b, Picks(b, |b|, |b|)) == b;
  }

  /** A bank of exactly two batteries is read as its two digits. */
  lemma TwoBatteryBank(b: seq<Digit>)
    requires |b| == 2
    ensures GreedyJoltage(b, 2) == 10 * (b[0] as int) + b[1]
  {
    FullBankIsItself(b);
    TwoDigitJoltage(b[0], b[1]);
    assert b == [b[0], b[1]];
  }

  // ---------------------------------------------------------------------------
  // Per-bank solvers

  /** The scan both parts run over a window: keep the first index and replace
      it only on a strictly larger digit. */
  method ScanLeftmostMax(batteries: seq<Digit>, lo: nat, hi: nat) returns (k: nat)
    requires lo < hi <= |batteries|
    ensures k == LeftmostMax(batteries, lo, hi)
  {
    k := lo;
    for index := lo to hi
      invariant k == LeftmostMax(batteries, lo, if index == lo then lo + 1 else index)
    {
      if batteries[index] > batteries[k] {
        k := index;
      }
    }
  }

  /** Two digits written side by side and parsed back (Integer.parseInt). */
  lemma TwoDigitValue(x: Digit, y: Digit)
    ensures Value(Digits(x) + Digits(y)) == 10 * (x as int) + y
  {
    var s := Digits(x) + Digits(y);
    assert s == [DigitChar(x), DigitChar(y)];
    assert s[..1] == [DigitChar(x)];
    assert s[..1][..0] == [];
    assert Value(s[..1]) == x;
  }

  /** Two increasing positions form a selection whose number is 10 * b[i] + b[j]. */
  lemma PairJoltage(b: seq<Digit>, i: nat, j: nat)
    requires i < j < |b|
    ensures IsSelection([i, j], |b|, 2)
    ensures Joltage(Selected(b, [i, j])) == 10 * (b[i] as int) + b[j]
  {
    assert Selected(b, [i, j]) == [b[i], b[j]];
    TwoDigitJoltage(b[i], b[j]);
  }

  /** The part-1 greedy answer is 10 * b[first] + b[second] for its two picks. */
  lemma GreedyPairValue(b: seq<Digit>)
    requires |b| >= 2
    ensures var p := Picks(b, 2, 2);
      p[0] < p[1] < |b| && GreedyJoltage(b, 2) == 10 * (b[p[0]] as int) + b[p[1]]
  {
    var p := Picks(b, 2, 2);
    assert p == [p[0], p[1]];
    PairJoltage(b, p[0], p[1]);
  }

  /** The part-1 greedy answer is the best 10 * b[i] + b[j] over i < j. */
  lemma GreedyPairIsBest(b: seq<Digit>)
    requires |b| >= 2
    ensures forall i, j :: 0 <= i < j < |b| ==> 10 * (b[i] as int) + b[j] <= GreedyJoltage(b, 2)
  {
    forall i, j | 0 <= i < j < |b|
      ensures 10 * (b[i] as int) + b[j] <= GreedyJoltage(b, 2)
    {
      PairJoltage(b, i, j);
      GreedyIsOptimal(b, 2, [i, j]);
    }
  }

  /** computePart1BankJoltage: the two greedy scans, then the two digits read as
      one number; it is the largest 10 * b[i] + b[j] over i < j. */
  method ComputePart1BankJoltage(bank: BatteryBank) returns (joltage: nat)
    ensures joltage == GreedyJoltage(bank.batteries, 2)
    ensures joltage <= 99
    ensures forall i, j :: 0 <= i < j < |bank.batteries| ==>
      10 * (bank.batteries[i] as int) + bank.batteries[j] <= joltage
    ensures exists i, j ::
      0 <= i < j < |bank.batteries| && joltage == 10 * (bank.batteries[i] as int) + bank.batteries[j]
  {
    var batteries := bank.batteries;
    var first := ScanLeftmostMax(batteries, 0, |batteries| - 1);
    var second := ScanLeftmostMax(batteries, first + 1, |batteries|);
    joltage := Value(Digits(batteries[first]) + Digits(batteries[second]));
    TwoDigitValue(batteries[first], batteries[second]);
    assert Picks(batteries, 2, 1) == [first];
    assert Picks(batteries, 2, 2) == [first, second];
    GreedyPairValue(batteries);
    GreedyPairIsBest(batteries);
  }

  /** The window of pick i is not empty: it starts just after pick i - 1 and
      ends where K - 1 - i digits are still left. */
  lemma PickWindow(b: seq<Digit>, K: nat, i: nat, start: nat)
    requires K <= |b| && i < K
    requires start == if i == 0 then 0 else Picks(b, K, i)[i - 1] + 1
    ensures start < |b| - (K - 1 - i)
  {
  }

  /** One more greedy pick: the leftmost largest digit of pick i's window. */
  lemma NextPick(b: seq<Digit>, K: nat, i: nat, picks: seq<nat>, start: nat, end: nat, current: nat)
    requires K <= |b| && i < K
    requires picks == Picks(b, K, i)
    requires start == if i == 0 then 0 else picks[i - 1] + 1
    requires end == |b| - (K - 1 - i)
    requires start < end
    requires current == LeftmostMax(b, start, end)
    ensures picks + [current] == Picks(b, K, i + 1)
  {
  }

  /** Appending the text of the next selected digit extends the text of the
      selection by one position. */
  lemma AppendDigit(b: seq<Digit>, sel: seq<nat>, j: nat)
    requires j < |sel| && forall k :: 0 <= k < |sel| ==> sel[k] < |b|
    ensures DigitString(Selected(b, sel[..j + 1])) ==
      DigitString(Selected(b, sel[..j])) + Digits(b[sel[j]])
  {
    assert Selected(b, sel[..j + 1]) == Selected(b, sel[..j]) + [b[sel[j]]];
    assert Digits(b[sel[j]]) == [DigitChar(b[sel[j]])];
  }

  /** The part-2 greedy answer has at most twelve digits and beats every other
      choice of twelve batteries. */
  lemma Part2GreedyBounds(b: seq<Digit>)
    requires |b| >= Part2Digits
    ensures GreedyJoltage(b, Part2Digits) < 1_000_000_000_000
    ensures forall sel :: IsSelection(sel, |b|, Part2Digits) ==>
      Joltage(Selected(b, sel)) <= GreedyJoltage(b, Part2Digits)
  {
    GreedyIsMaximum(b, Part2Digits);
    Pow10Of12();
  }

  /** computePart2BankJoltage: fails on fewer than 12 batteries; otherwise fills
      the array of twelve greedy picks, writes their digits side by side and
      reads the result as a number, which is the largest 12-digit selection. */
  method ComputePart2BankJoltage(bank: BatteryBank) returns (r: Result<nat, BankError>)
    ensures |bank.batteries| < Part2Digits ==> r == Err(FewerThanPart2Digits)
    ensures |bank.batteries| >= Part2Digits ==> r == Ok(GreedyJoltage(bank.batteries, Part2Digits))
    ensures r.Ok? ==> r.value < 1_000_000_000_000
    ensures r.Ok? ==> forall sel :: IsSelection(sel, |bank.batteries|, Part2Digits) ==>
      Joltage(Selected(bank.batteries, sel)) <= r.value
  {
    var numDigits := Part2Digits;
    if |bank.batteries| < numDigits {
      return Err(FewerThanPart2Digits);
    }
    var batteries := bank.batteries;
    var n := |batteries|;
    var picks := new nat[numDigits];
    for i := 0 to picks.Length
      invariant picks[..i] == Picks(batteries, numDigits, i)
    {
      ghost var earlier := picks[..i];
      var start, end;
      if i == 0 {
        start, end := 0, n - (numDigits - 1);
      } else {
        assert picks[i - 1] == earlier[i - 1];
        start, end := picks[i - 1] + 1, n - (11 - i);
      }
      PickWindow(batteries, numDigits, i, start);
      var current := ScanLeftmostMax(batteries, start, end);
      NextPick(batteries, numDigits, i, earlier, start, end, current);
      picks[i] := current;
      assert picks[..i + 1] == earlier + [current];
    }
    var chosen := picks[..];
    assert chosen == Picks(batteries, numDigits, numDigits);
    var builder := "";
    for j := 0 to |chosen|
      invariant builder == DigitString(Selected(batteries, chosen[..j]))
    {
      AppendDigit(batteries, chosen, j);
      builder := builder + Digits(batteries[chosen[j]]);
    }
    assert chosen[..|chosen|] == chosen;
    r := Ok(Value(builder));
    Part2GreedyBounds(batteries);
  }

  // ---------------------------------------------------------------------------
  // Totals over all banks

  /** computePart1TotalOutputJoltage: the part-1 joltages summed (0 for none). */
  function Part1Total(banks: seq<BatteryBank>): (t: nat)
    ensures t <= 99 * |banks|
  {
    if banks == [] then 0
    else
      var b := banks[|banks| - 1].batteries;
      GreedyIsSelection(b, 2);
      Part1Total(banks[..|banks| - 1]) + GreedyJoltage(b, 2)
  }

  /** computePart2TotalOutputJoltage: the part-2 joltages summed (0 for none);
      the first bank with fewer than 12 batteries makes the whole total fail. */
  function Part2Total(banks: seq<BatteryBank>): (r: Result<nat, BankError>)
    ensures r.Err? ==> r.error == FewerThanPart2Digits && banks != []
  {
    if banks == [] then Ok(0)
    else
      var b := banks[|banks| - 1].batteries;
      match Part2Total(banks[..|banks| - 1])
      case Err(e) => Err(e)
      case Ok(t) =>
        if |b| < Part2Digits then Err(FewerThanPart2Digits)
        else Ok(t + GreedyJoltage(b, Part2Digits))
  }

  /** Every bank has at least the 12 batteries part 2 needs. */
  predicate AllBanksLongEnough(banks: seq<BatteryBank>) {
    forall i :: 0 <= i < |banks| ==> |banks[i].batteries| >= Part2Digits
  }

  lemma AllBanksLongEnoughSnoc(banks: seq<BatteryBank>)
    requires banks != []
    ensures AllBanksLongEnough(banks) <==>
      AllBanksLongEnough(banks[..|banks| - 1]) && |banks[|banks| - 1].batteries| >= Part2Digits
  {
    var init := banks[..|banks| - 1];
    if AllBanksLongEnough(init) && |banks[|banks| - 1].batteries| >= Part2Digits {
      forall i | 0 <= i < |banks| ensures |banks[i].batteries| >= Part2Digits {
        if i < |init| {
          assert banks[i] == init[i];
        }
      }
    }
  }

  /** The part-2 total fails exactly when some bank is shorter than 12, and
      otherwise stays below 10^12 per bank. */
  lemma {:induction false} Part2TotalOutcome(banks: seq<BatteryBank>)
    ensures Part2Total(banks).Ok? <==> AllBanksLongEnough(banks)
    ensures Part2Total(banks).Err? ==> Part2Total(banks).error == FewerThanPart2Digits
    ensures Part2Total(banks).Ok? ==> Part2Total(banks).value <= |banks| * 999_999_999_999
  {
    if banks != [] {
      var init := banks[..|banks| - 1];
      var b := banks[|banks| - 1].batteries;
      Part2TotalOutcome(init);
      AllBanksLongEnoughSnoc(banks);
      if Part2Total(init).Ok? && |b| >= Part2Digits {
        GreedyIsSelection(b, Part2Digits);
        Pow10Of12();
        assert Part2Total(banks) == Ok(Part2Total(init).value + GreedyJoltage(b, Part2Digits));
      }
    }
  }

  // ---------------------------------------------------------------------------
  // Parsing one bank per line

  /** Integer.parseInt on one piece of line.split(""), which is a single
      character (or the empty string, for an empty line): only a digit parses. */
  function ParseDigitPiece(piece: string): (r: Option<Digit>)
    ensures r.Some? <==> |piece| == 1 && IsDigitChar(piece[0])
    ensures r.Some? ==> piece == [DigitChar(r.value)]
  {
    if |piece| == 1 && IsDigitChar(piece[0]) then Some(DigitValue(piece[0])) else None
  }

  /** The pieces parsed in order; the first that is not a digit is the error. */
  function DigitsOfPieces(pieces: seq<string>): (r: Result<seq<Digit>, BankError>)
    ensures r.Ok? ==> |r.value| == |pieces|
    ensures r.Err? ==> r.error.NotANumber?
  {
    if pieces == [] then Ok([])
    else
      match DigitsOfPieces(pieces[..|pieces| - 1])
      case Err(e) => Err(e)
      case Ok(ds) =>
        match ParseDigitPiece(pieces[|pieces| - 1])
        case None => Err(NotANumber(pieces[|pieces| - 1]))
        case Some(d) => Ok(ds + [d])
  }

  /** One line: its characters as digits, then the record's length check. */
  function BankOf(line: string): (r: Result<BatteryBank, BankError>)
    ensures r.Err? ==> r.error.NotANumber? || (r.error == TooFewBatteries && |line| < 2)
  {
    match DigitsOfPieces(SplitChars(line))
    case Err(e) => Err(e)
    case Ok(ds) => NewBatteryBank(ds)
  }

  /** The lines parsed in order; the first failing line gives the error. */
  function BanksOf(lines: seq<string>): (r: Result<seq<BatteryBank>, BankError>)
    ensures r.Ok? ==> |r.value| == |lines|
    ensures r.Err? ==> r.error != FewerThanPart2Digits
  {
    if lines == [] then Ok([])
    else
      match BanksOf(lines[..|lines| - 1])
      case Err(e) => Err(e)
      case Ok(banks) =>
        match BankOf(lines[|lines| - 1])
        case Err(e) => Err(e)
        case Ok(bank) => Ok(banks + [bank])
  }

  /** A line too short for a bank: the empty line fails in the character parse,
      before the record is built; a one-digit line reaches the record's check. */
  lemma ShortLines(d: Digit)
    ensures BankOf([]) == Err(NotANumber([]))
    ensures BankOf([DigitChar(d)]) == Err(TooFewBatteries)
  {
    assert SplitChars([]) == [[]];
    var line := [DigitChar(d)];
    assert SplitChars(line) == [line];
    assert [line][..0] == [];
    assert ParseDigitPiece(line) == Some(d);
    assert DigitsOfPieces([line]) == Ok([] + [d]);
  }

  /** Each piece is parsed on its own: on success every piece is the digit
      at its position; on failure the error names the first piece that is not
      a digit. */
  lemma {:induction false} DigitsPieceByPiece(pieces: seq<string>)
    ensures var r := DigitsOfPieces(pieces);
      r.Ok? ==> forall i :: 0 <= i < |pieces| ==> ParseDigitPiece(pieces[i]) == Some(r.value[i])
    ensures var r := DigitsOfPieces(pieces);
      r.Err? ==>
        exists i :: 0 <= i < |pieces| && ParseDigitPiece(pieces[i]).None? && r.error == NotANumber(pieces[i]) &&
          forall k :: 0 <= k < i ==> ParseDigitPiece(pieces[k]).Some?
  {
    if pieces != [] {
      var init := pieces[..|pieces| - 1];
      var last := pieces[|pieces| - 1];
      DigitsPieceByPiece(init);
      match DigitsOfPieces(init)
      case Err(e) =>
        FailureInPrefix(pieces, init, piece => ParseDigitPiece(piece).None? && e == NotANumber(piece),
          piece => ParseDigitPiece(piece).Some?);
      case Ok(ds) =>
        match ParseDigitPiece(last)
        case None =>
          FailureAtLast(pieces, init, piece => ParseDigitPiece(piece).None? && NotANumber(last) == NotANumber(piece),
            piece => ParseDigitPiece(piece).Some?);
        case Some(d) =>
          PairedSnoc(pieces, ds, d, (piece, digit) => ParseDigitPiece(piece) == Some(digit));
    }
  }

  /** A parsed bank, written back as digits, is the line it came from. */
  lemma BankSpellsLine(line: string)
    ensures BankOf(line).Ok? ==> DigitString(BankOf(line).value.batteries) == line
  {
    var pieces := SplitChars(line);
    DigitsPieceByPiece(pieces);
    if BankOf(line).Ok? {
      var ds := DigitsOfPieces(pieces).value;
      forall i | 0 <= i < |line|
        ensures DigitString(ds)[i] == line[i]
      {
        assert pieces[i] == [line[i]] == [DigitChar(ds[i])];
      }
    }
  }

  /** Each line is parsed on its own: on success bank i comes from line i; on
      failure the error is the first failing line's. */
  lemma {:induction false} BanksLineByLine(lines: seq<string>)
    ensures var r := BanksOf(lines);
      r.Ok? ==> forall i :: 0 <= i < |lines| ==> BankOf(lines[i]) == Ok(r.value[i])
    ensures var r := BanksOf(lines);
      r.Err? ==>
        exists i :: 0 <= i < |lines| && BankOf(lines[i]) == Err(r.error) &&
          forall k :: 0 <= k < i ==> BankOf(lines[k]).Ok?
  {
    if lines != [] {
      var init := lines[..|lines| - 1];
      BanksLineByLine(init);
      match BanksOf(init)
      case Err(e) =>
        FailureInPrefix(lines, init, line => BankOf(line) == Err(e), line => BankOf(line).Ok?);
      case Ok(banks) =>
        match BankOf(lines[|lines| - 1])
        case Err(e) =>
          FailureAtLast(lines, init, line => BankOf(line) == Err(e), line => BankOf(line).Ok?);
        case Ok(bank) =>
          PairedSnoc(lines, banks, bank, (line, b) => BankOf(line) == Ok(b));
    }
  }

  lemma {:induction false} DigitsErrorPersists(pieces: seq<string>, i: nat, j: nat)
    requires i <= j <= |pieces|
    requires DigitsOfPieces(pieces[..i]).Err?
    ensures DigitsOfPieces(pieces[..j]) == DigitsOfPieces(pieces[..i])
    decreases j - i
  {
    if i < j {
      assert pieces[..i + 1][..i] == pieces[..i];
      DigitsErrorPersists(pieces, i + 1, j);
    }
  }

  lemma {:induction false} BanksErrorPersists(lines: seq<string>, i: nat, j: nat)
    requires i <= j <= |lines|
    requires BanksOf(lines[..i]).Err?
    ensures BanksOf(lines[..j]) == BanksOf(lines[..i])
    decreases j - i
  {
    if i < j {
      var pre := lines[..i + 1];
      assert pre[..|pre| - 1] == lines[..i];
      assert BanksOf(pre) == BanksOf(lines[..i]);
      BanksErrorPersists(lines, i + 1, j);
    }
  }

  /** One more character of a line: its error ends the line's parse, or its
      digit is appended. */
  lemma DigitStep(pieces: seq<string>, k: nat, batteries: seq<Digit>)
    requires k < |pieces| && DigitsOfPieces(pieces[..k]) == Ok(batteries)
    ensures ParseDigitPiece(pieces[k]).None? ==> DigitsOfPieces(pieces) == Err(NotANumber(pieces[k]))
    ensures ParseDigitPiece(pieces[k]).Some? ==>
      DigitsOfPieces(pieces[..k + 1]) == Ok(batteries + [ParseDigitPiece(pieces[k]).value])
  {
    assert pieces[..k + 1][..k] == pieces[..k];
    if ParseDigitPiece(pieces[k]).None? {
      DigitsErrorPersists(pieces, k + 1, |pieces|);
      assert pieces[..|pieces|] == pieces;
    }
  }

  /** One more line: its error ends the parse, or its bank is appended. */
  lemma BankStep(lines: seq<string>, i: nat, banks: seq<BatteryBank>)
    requires i < |lines| && BanksOf(lines[..i]) == Ok(banks)
    ensures BankOf(lines[i]).Err? ==> BanksOf(lines) == Err(BankOf(lines[i]).error)
    ensures BankOf(lines[i]).Ok? ==> BanksOf(lines[..i + 1]) == Ok(banks + [BankOf(lines[i]).value])
  {
    var pre := lines[..i + 1];
    assert pre[..|pre| - 1] == lines[..i];
    if BankOf(lines[i]).Err? {
      BanksErrorPersists(lines, i + 1, |lines|);
      assert lines[..|lines|] == lines;
    }
  }

  /** parseInput: split on '\n', each line split into characters, each character
      parsed as a digit, each line made a bank. */
  method ParseInput(input: string) returns (r: Result<seq<BatteryBank>, BankError>)
    ensures r == BanksOf(Split(input, '\n'))
  {
    var lines := Split(input, '\n');
    var result: seq<BatteryBank> := [];
    for i := 0 to |lines|
      invariant BanksOf(lines[..i]) == Ok(result)
    {
      BankStep(lines, i, result);
      var pieces := SplitChars(lines[i]);
      var batteries: seq<Digit> := [];
      for k := 0 to |pieces|
        invariant DigitsOfPieces(pieces[..k]) == Ok(batteries)
      {
        var d := ParseDigitPiece(pieces[k]);
        DigitStep(pieces, k, batteries);
        if d.None? {
          return Err(NotANumber(pieces[k]));
        }
        batteries := batteries + [d.value];
      }
      assert pieces[..|pieces|] == pieces;
      var bank := NewBatteryBank(batteries);
      if bank.Err? {
        return Err(bank.error);
      }
      result := result + [bank.value];
    }
    assert lines[..|lines|] == lines;
    r := Ok(result);
  }

  /** The canonical text of banks: one line of digits per bank. */
  function RenderBanks(banks: seq<BatteryBank>): string
    requires |banks| >= 1
  {
    Join(seq(|banks|, i requires 0 <= i < |banks| => DigitString(banks[i].batteries)), '\n')
  }

  lemma {:induction false} DigitsOfRenderedPieces(ds: seq<Digit>)
    ensures DigitsOfPieces(seq(|ds|, i requires 0 <= i < |ds| => [DigitChar(ds[i])])) == Ok(ds)
  {
    if ds != [] {
      var init := ds[..|ds| - 1];
      DigitsOfRenderedPieces(init);
      var pieces := seq(|ds|, i requires 0 <= i < |ds| => [DigitChar(ds[i])]);
      assert pieces[..|pieces| - 1] == seq(|init|, i requires 0 <= i < |init| => [DigitChar(init[i])]);
      assert init + [ds[|ds| - 1]] == ds;
    }
  }

  lemma BankOfRendered(bank: BatteryBank)
    ensures BankOf(DigitString(bank.batteries)) == Ok(bank)
  {
    var ds := bank.batteries;
    assert SplitChars(DigitString(ds)) == seq(|ds|, i requires 0 <= i < |ds| => [DigitChar(ds[i])]);
    DigitsOfRenderedPieces(ds);
  }

  lemma {:induction false} BanksOfRendered(banks: seq<BatteryBank>, lines: seq<string>)
    requires |lines| == |banks|
    requires forall i :: 0 <= i < |lines| ==> lines[i] == DigitString(banks[i].batteries)
    ensures BanksOf(lines) == Ok(banks)
  {
    if banks != [] {
      var init := banks[..|banks| - 1];
      var last := banks[|banks| - 1];
      BanksOfRendered(init, lines[..|lines| - 1]);
      BankOfRendered(last);
      assert BankOf(lines[|lines| - 1]) == Ok(last);
      assert BanksOf(lines) == Ok(init + [last]);
      InitAndLast(banks);
    }
  }

  /** Writing a non-empty list of banks one per line and parsing the text gives
      the banks back. */
  lemma ParseRenderedBanks(banks: seq<BatteryBank>)
    requires |banks| >= 1
    ensures BanksOf(Split(RenderBanks(banks), '\n')) == Ok(banks)
  {
    var lines := seq(|banks|, i requires 0 <= i < |banks| => DigitString(banks[i].batteries));
    forall i | 0 <= i < |lines| ensures '\n' !in lines[i] {
      forall k | 0 <= k < |lines[i]| ensures lines[i][k] != '\n' {
        assert IsDigitChar(lines[i][k]);
      }
    }
    SplitOfJoin(lines, '\n');
    BanksOfRendered(banks, lines);
  }
}
