/** Decimal rendering of integers, as Python's f-string `{n}` prints them,
    and a reader for strings made of literal pieces and decimal numbers. */
module Decimal {
  import opened Wrappers

  predicate IsDigit(c: char) {
    '0' <= c <= '9'
  }

  predicate AllDigits(s: string) {
    forall i :: 0 <= i < |s| ==> IsDigit(s[i])
  }

  function DigitChar(d: int): (c: char)
    requires 0 <= d < 10
    ensures IsDigit(c)
  {
    ('0' as int + d) as char
  }

  function DigitValue(c: char): (d: int)
    requires IsDigit(c)
    ensures 0 <= d < 10
  {
    c as int - '0' as int
  }

  /** str(n) for n >= 0: digits only, no leading zero. */
  function NatToDecimal(n: nat): (s: string)
    ensures |s| >= 1 && AllDigits(s)
    ensures |s| > 1 ==> s[0] != '0'
    decreases n
  {
    if n < 10 then [DigitChar(n)] else NatToDecimal(n / 10) + [DigitChar(n % 10)]
  }

  /** The number a string of digits denotes. */
  function DecimalValue(s: string): nat
    requires AllDigits(s)
  {
    if s == [] then 0 else DecimalValue(s[..|s| - 1]) * 10 + DigitValue(s[|s| - 1])
  }

  /** Reading the decimal rendering of n gives n back. */
  lemma {:induction false} DecimalRoundTrip(n: nat)
    ensures DecimalValue(NatToDecimal(n)) == n
    decreases n
  {
    var s := NatToDecimal(n);
    if n >= 10 {
      DecimalRoundTrip(n / 10);
      assert s[..|s| - 1] == NatToDecimal(n / 10);
    }
  }

  /** The length of the run of digits at the start of s. */
  function DigitPrefix(s: string): (k: nat)
    ensures k <= |s| && AllDigits(s[..k])
    ensures k < |s| ==> !IsDigit(s[k])
  {
    if s == [] || !IsDigit(s[0]) then 0
    else
      var k := 1 + DigitPrefix(s[1..]);
      assert s[..k] == [s[0]] + s[1..][..k - 1];
      k
  }

  /** A digit string followed by nothing or by a non-digit: the run at the
      start is exactly the digit string. */
  lemma {:induction false} DigitPrefixOfDigits(d: string, t: string)
    requires AllDigits(d)
    requires t == [] || !IsDigit(t[0])
    ensures DigitPrefix(d + t) == |d|
  {
    if d != [] {
      assert (d + t)[1..] == d[1..] + t;
      DigitPrefixOfDigits(d[1..], t);
    }
  }

  /** The literal pieces of a template separate the numbers: each piece after
      the first starts with a non-digit, except that the last may be empty. */
  predicate Separated(lits: seq<string>) {
    forall j :: 1 <= j < |lits| ==>
      (|lits[j]| > 0 && !IsDigit(lits[j][0])) || (j == |lits| - 1 && lits[j] == [])
  }

  /** lits[0] + str(nums[0]) + lits[1] + ... + str(nums[k-1]) + lits[k]. */
  function Interleave(lits: seq<string>, nums: seq<nat>): string
    requires |lits| == |nums| + 1
    decreases |nums|
  {
    if nums == [] then lits[0]
    else lits[0] + NatToDecimal(nums[0]) + Interleave(lits[1..], nums[1..])
  }

  /** Reads a string against a template of literal pieces: each piece must
      appear as written, and between two pieces a non-empty run of digits
      is read as one number. */
  function ReadTemplate(lits: seq<string>, s: string): Option<seq<nat>>
    requires |lits| >= 1
    decreases |lits|
  {
    var p := lits[0];
    if !(|p| <= |s| && s[..|p|] == p) then None
    else
      var rest := s[|p|..];
      if |lits| == 1 then (if rest == [] then Some([]) else None)
      else
        var k := DigitPrefix(rest);
        if k == 0 then None
        else match ReadTemplate(lits[1..], rest[k..])
          case None => None
          case Some(ns) => Some([DecimalValue(rest[..k])] + ns)
  }

  /** Reading a rendered template gives back exactly its numbers. */
  lemma {:induction false} ReadInterleave(lits: seq<string>, nums: seq<nat>)
    requires |lits| == |nums| + 1 && Separated(lits)
    ensures ReadTemplate(lits, Interleave(lits, nums)) == Some(nums)
    decreases |nums|
  {
    var p := lits[0];
    if nums == [] {
      assert lits[0][..|p|] == p && lits[0][|p|..] == [];
    } else {
      var d := NatToDecimal(nums[0]);
      var tail := Interleave(lits[1..], nums[1..]);
      assert Interleave(lits, nums) == p + (d + tail);
      SeparatedTail(lits);
      TailStartsNonDigit(lits, nums);
      ReadTemplateStep(lits, d, tail);
      DecimalRoundTrip(nums[0]);
      ReadInterleave(lits[1..], nums[1..]);
      assert [nums[0]] + nums[1..] == nums;
    }
  }

  /** The pieces after the first are separated too. */
  lemma SeparatedTail(lits: seq<string>)
    requires |lits| >= 1 && Separated(lits)
    ensures Separated(lits[1..])
  {
    forall j | 1 <= j < |lits[1..]|
      ensures (|lits[1..][j]| > 0 && !IsDigit(lits[1..][j][0])) || (j == |lits[1..]| - 1 && lits[1..][j] == [])
    {
      assert lits[1..][j] == lits[j + 1];
    }
  }

  /** What follows the first number of a rendered template is empty or
      starts with a non-digit. */
  lemma TailStartsNonDigit(lits: seq<string>, nums: seq<nat>)
    requires |lits| == |nums| + 1 && |nums| >= 1 && Separated(lits)
    ensures var tail := Interleave(lits[1..], nums[1..]);
      tail == [] || !IsDigit(tail[0])
  {
    var tail := Interleave(lits[1..], nums[1..]);
    assert lits[1] == lits[1..][0];
    if |nums| == 1 {
      assert tail == lits[1];
    } else {
      assert lits[1..][1..] == lits[2..] && nums[1..][1..] == nums[2..];
      assert tail == lits[1] + NatToDecimal(nums[1]) + Interleave(lits[2..], nums[2..]);
      assert |lits[1]| > 0;
      assert tail[0] == lits[1][0];
    }
  }

  /** One step of reading: the first piece, then a digit string that the
      rest does not continue, read as one number. */
  lemma ReadTemplateStep(lits: seq<string>, d: string, tail: string)
    requires |lits| >= 2 && d != [] && AllDigits(d)
    requires tail == [] || !IsDigit(tail[0])
    ensures ReadTemplate(lits, lits[0] + (d + tail)) ==
      match ReadTemplate(lits[1..], tail)
      case None => None
      case Some(ns) => Some([DecimalValue(d)] + ns)
  {
    var p := lits[0];
    var s := p + (d + tail);
    assert s[..|p|] == p;
    var rest := s[|p|..];
    assert rest == d + tail;
    DigitPrefixOfDigits(d, tail);
    assert rest[..|d|] == d && rest[|d|..] == tail;
  }
}
