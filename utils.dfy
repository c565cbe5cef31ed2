/**
 The two input generators of the weather dashboard test suite that carry logic of
 their own: the rolling order of weekday abbreviations that the forecast table
 header must show, and the rejection sampler that produces a non-numeric string
 for the coordinate inputs.

 The clock read (`datetime.now().weekday()`) becomes the parameter `today`, and
 the random choices become the parameter `draws`.
 */
module Utils {
  import opened Wrappers

  // ---------------------------------------------------------------------------
  // Rolling weekday order
  // ---------------------------------------------------------------------------

  /** The weekday abbreviations, Monday first. */
  const Days: seq<string> := ["Mon", "Tue", "Wed", "Thu", "Fri", "Sat", "Sun"]

  /** A value of `datetime.weekday()`: 0 is Monday, 6 is Sunday. */
  type Weekday = d: int | 0 <= d < 7

  /** `s[k:] + s[:k]`: the left rotation of `s` by `k` places. */
  function RotateLeft<T>(s: seq<T>, k: nat): (r: seq<T>)
    requires k <= |s|
    ensures |r| == |s|
    ensures forall i :: 0 <= i < |s| - k ==> r[i] == s[k + i]
    ensures forall i :: |s| - k <= i < |s| ==> r[i] == s[k + i - |s|]
  {
    s[k..] + s[..k]
  }

  /** Rotating only reorders: the rotation is a permutation of its input. */
  lemma RotateLeftPermutation<T>(s: seq<T>, k: nat)
    requires k <= |s|
    ensures multiset(RotateLeft(s, k)) == multiset(s)
  {
    assert s == s[..k] + s[k..];
  }

  /** Rotating by the remaining places undoes a rotation. */
  lemma RotateLeftInverse<T>(s: seq<T>, k: nat)
    requires k <= |s|
    ensures RotateLeft(RotateLeft(s, k), |s| - k) == s
  {
    var back := RotateLeft(RotateLeft(s, k), |s| - k);
    assert forall i :: 0 <= i < |s| ==> back[i] == s[i];
  }

  /**
   The header order of the week forecast table: the seven abbreviations
   starting with `today`'s. Its entry `i` is the day `i` days after today.
   */
  function DynamicDaysOrder(today: Weekday): (r: seq<string>)
    ensures |r| == 7
    ensures r[0] == Days[today]
    ensures forall i :: 0 <= i < 7 ==> r[i] == Days[(today + i) % 7]
    ensures today == 0 ==> r == Days
  {
    RotateLeft(Days, today)
  }

  /** The header holds the seven abbreviations, each as often as in `Days`. */
  lemma DynamicDaysOrderPermutation(today: Weekday)
    ensures multiset(DynamicDaysOrder(today)) == multiset(Days)
  {
    RotateLeftPermutation(Days, today);
  }

  /** The seven abbreviations are pairwise different. */
  lemma DaysDistinct()
    ensures forall i, j :: 0 <= i < |Days| && 0 <= j < |Days| && i != j ==> Days[i] != Days[j]
  {
  }

  /** Every weekday `d` appears in the header, at the column `(d - today) mod 7`. */
  lemma {:induction false} DynamicDaysOrderPosition(today: Weekday, d: Weekday)
    ensures DynamicDaysOrder(today)[(d - today) % 7] == Days[d]
  {
    var r := DynamicDaysOrder(today);
    var p := (d - today) % 7;
    assert r[p] == Days[(today + p) % 7];
    if today <= d {
      assert p == d - today;
    } else {
      assert p == d - today + 7;
    }
  }

  /** No abbreviation appears twice in the header. */
  lemma DynamicDaysOrderDistinct(today: Weekday)
    ensures forall i, j :: 0 <= i < j < 7 ==> DynamicDaysOrder(today)[i] != DynamicDaysOrder(today)[j]
  {
    var r := DynamicDaysOrder(today);
    forall i, j | 0 <= i < j < 7
      ensures r[i] != r[j]
    {
      var p, q := (today + i) % 7, (today + j) % 7;
      assert p != q;
      DaysDistinct();
      assert Days[p] != Days[q];
    }
  }

  /** Exactly the seven abbreviations appear in the header. */
  lemma DynamicDaysOrderMembers(today: Weekday)
    ensures forall x :: x in DynamicDaysOrder(today) <==> x in Days
  {
    var r := DynamicDaysOrder(today);
    DynamicDaysOrderPermutation(today);
    forall x
      ensures x in r <==> x in Days
    {
      assert x in r <==> x in multiset(r);
      assert x in Days <==> x in multiset(Days);
    }
  }

  /** A header in this order identifies the weekday: different days give different headers. */
  lemma DynamicDaysOrderInjective(a: Weekday, b: Weekday)
    requires DynamicDaysOrder(a) == DynamicDaysOrder(b)
    ensures a == b
  {
    DaysDistinct();
    assert Days[a] == DynamicDaysOrder(a)[0] == DynamicDaysOrder(b)[0] == Days[b];
  }

  // ---------------------------------------------------------------------------
  // Non-numeric string generator
  // ---------------------------------------------------------------------------

  const AsciiLetters: string := "abcdefghijklmnopqrstuvwxyzABCDEFGHIJKLMNOPQRSTUVWXYZ"
  const Punctuation: string := "!\"#$%&'()*+,-./:;<=>?@[\\]^_`{|}~"
  const Digits: string := "0123456789"

  /** The alphabet the generator draws from: letters, then punctuation, then digits. */
  const AllowedChars: string := AsciiLetters + Punctuation + Digits

  predicate IsAsciiDigit(c: char) {
    '0' <= c <= '9'
  }

  /**
   `s.isdigit()`: the string is non-empty and every character is a digit.
   Only ASCII digits are considered, as the generator's alphabet is ASCII.
   */
  predicate IsDigits(s: string) {
    |s| > 0 && forall i :: 0 <= i < |s| ==> IsAsciiDigit(s[i])
  }

  /** `s.replace('.', '')`: `s` with every decimal point removed, the rest in order. */
  function StripDots(s: string): (r: string)
    ensures '.' !in r
    ensures forall c :: c in r <==> c in s && c != '.'
    ensures |r| <= |s|
  {
    if s == [] then []
    else (if s[0] == '.' then [] else [s[0]]) + StripDots(s[1..])
  }

  /** Removing decimal points commutes with concatenation. */
  lemma {:induction false} StripDotsAppend(a: string, b: string)
    ensures StripDots(a + b) == StripDots(a) + StripDots(b)
  {
    if a == [] {
      assert a + b == b;
    } else {
      assert (a + b)[0] == a[0];
      assert (a + b)[1..] == a[1..] + b;
      StripDotsAppend(a[1..], b);
    }
  }

  /** A string without decimal points is left unchanged. */
  lemma {:induction false} StripDotsNoDots(s: string)
    requires '.' !in s
    ensures StripDots(s) == s
  {
    if s != [] {
      assert s[0] in s;
      StripDotsNoDots(s[1..]);
    }
  }

  /** Nothing is left of a string of decimal points. */
  lemma {:induction false} StripDotsAllDots(s: string)
    requires forall i :: 0 <= i < |s| ==> s[i] == '.'
    ensures StripDots(s) == []
  {
    if s != [] {
      StripDotsAllDots(s[1..]);
    }
  }

  /** Removing decimal points a second time changes nothing. */
  lemma StripDotsIdempotent(s: string)
    ensures StripDots(StripDots(s)) == StripDots(s)
  {
    StripDotsNoDots(StripDots(s));
  }

  /** The exit condition of the retry loop: `not s.replace('.', '').isdigit()`. */
  predicate IsNonFloat(s: string) {
    !IsDigits(StripDots(s))
  }

  /**
   A candidate is accepted exactly when it consists of decimal points only
   (the empty string included) or holds a character that is neither a
   decimal point nor a digit.
   */
  lemma IsNonFloatIff(s: string)
    ensures IsNonFloat(s) <==>
      (forall i :: 0 <= i < |s| ==> s[i] == '.') ||
      (exists i :: 0 <= i < |s| && s[i] != '.' && !IsAsciiDigit(s[i]))
  {
    var r := StripDots(s);
    if forall i :: 0 <= i < |s| ==> s[i] == '.' {
      StripDotsAllDots(s);
    } else if exists i :: 0 <= i < |s| && s[i] != '.' && !IsAsciiDigit(s[i]) {
      var i :| 0 <= i < |s| && s[i] != '.' && !IsAsciiDigit(s[i]);
      assert s[i] in s;
      assert s[i] in r;
    } else {
      var i :| 0 <= i < |s| && s[i] != '.';
      assert s[i] in s;
      assert s[i] in r;
      forall j | 0 <= j < |r|
        ensures IsAsciiDigit(r[j])
      {
        assert r[j] in r;
        assert r[j] in s;
      }
    }
  }

  /** A candidate made only of decimal points is accepted, because `''.isdigit()` is false. */
  lemma DotsOnlyAccepted(s: string)
    requires forall i :: 0 <= i < |s| ==> s[i] == '.'
    ensures IsNonFloat(s)
  {
    IsNonFloatIff(s);
  }

  /** `"1.2.3"` is rejected, although it is not a well-formed decimal number. */
  lemma MultiDotDigitsRejected()
    ensures !IsNonFloat("1.2.3")
  {
    var s := "1.2.3";
    assert s[0] != '.';
    IsNonFloatIff(s);
  }

  /**
   The predicate does not test for a float literal: a sign followed by
   digits and decimal points is accepted, because the sign is neither a
   decimal point nor a digit, although many such strings, such as
   `"-12.5"` or `"+000000045"`, read as numbers.
   */
  lemma SignedNumeralAccepted(s: string)
    requires |s| > 0 && (s[0] == '+' || s[0] == '-')
    requires forall i :: 1 <= i < |s| ==> s[i] == '.' || IsAsciiDigit(s[i])
    ensures IsNonFloat(s)
  {
    IsNonFloatIff(s);
  }

  /**
   `"+000000045"`, ten characters of the alphabet, is accepted, although it
   reads as 45.0, a valid latitude and longitude.
   */
  lemma InRangeNumeralAccepted()
    ensures |"+000000045"| == 10
    ensures forall i :: 0 <= i < 10 ==> "+000000045"[i] in AllowedChars
    ensures IsNonFloat("+000000045")
  {
    var s := "+000000045";
    assert s[0] == Punctuation[10];
    assert forall i :: 1 <= i < 8 ==> s[i] == Digits[0];
    assert s[8] == Digits[4] && s[9] == Digits[5];
    SignedNumeralAccepted(s);
  }

  /** `max(length, 0)`: `random.choices` with a negative `k` chooses nothing. */
  function DrawLength(length: int): (n: nat)
    ensures length <= n
    ensures n == 0 || n == length
  {
    if length < 0 then 0 else length
  }
  /** Every pick is a position in the alphabet. */
  predicate InAlphabet(picks: seq<nat>) {
    forall i :: 0 <= i < |picks| ==> picks[i] < |AllowedChars|
  }

  /** One call of `random.choices(allowed_chars, k=length)`, as the alphabet positions it picked. */
  predicate IsDraw(picks: seq<nat>, length: int) {
    |picks| == DrawLength(length) && InAlphabet(picks)
  }

  /** `''.join(...)` of the characters a draw picked. */
  function Spell(picks: seq<nat>): (s: string)
    requires InAlphabet(picks)
    ensures |s| == |picks|
    ensures forall i :: 0 <= i < |s| ==> s[i] in AllowedChars
  {
    seq(|picks|, i requires 0 <= i < |picks| => AllowedChars[picks[i]])
  }

  /** The candidate strings the loop builds, one per draw. */
  function Candidates(length: int, draws: seq<seq<nat>>): (cands: seq<string>)
    requires forall j :: 0 <= j < |draws| ==> IsDraw(draws[j], length)
    ensures |cands| == |draws|
    ensures forall j :: 0 <= j < |cands| ==>
      |cands[j]| == DrawLength(length) && forall i :: 0 <= i < |cands[j]| ==> cands[j][i] in AllowedChars
  {
    seq(|draws|, j requires 0 <= j < |draws| && IsDraw(draws[j], length) => Spell(draws[j]))
  }

  /** The position of the first accepted candidate, or `|cands|` when none is accepted. */
  function FirstNonFloat(cands: seq<string>): (k: nat)
    ensures k <= |cands|
    ensures k < |cands| ==> IsNonFloat(cands[k])
    ensures forall j :: 0 <= j < k ==> !IsNonFloat(cands[j])
  {
    if cands == [] then 0
    else if IsNonFloat(cands[0]) then 0
    else 1 + FirstNonFloat(cands[1..])
  }

  /** Some candidate is accepted exactly when the search stops inside the sequence. */
  lemma FirstNonFloatFound(cands: seq<string>)
    ensures FirstNonFloat(cands) < |cands| <==> exists j :: 0 <= j < |cands| && IsNonFloat(cands[j])
  {
    if exists j :: 0 <= j < |cands| && IsNonFloat(cands[j]) {
      var j :| 0 <= j < |cands| && IsNonFloat(cands[j]);
      assert FirstNonFloat(cands) <= j;
    }
  }

  /** With `length <= 0` the first draw spells `''`, which is accepted at once. */
  lemma NonPositiveLengthAcceptedAtOnce(length: int, draws: seq<seq<nat>>)
    requires length <= 0 && |draws| > 0
    requires forall j :: 0 <= j < |draws| ==> IsDraw(draws[j], length)
    ensures FirstNonFloat(Candidates(length, draws)) == 0
    ensures Candidates(length, draws)[0] == ""
  {
    DotsOnlyAccepted(Candidates(length, draws)[0]);
  }

  /**
   `create_random_non_float(length)`: build candidates until one is not all
   digits once its decimal points are removed, and return it. `draws`
   supplies the random choices, one draw per candidate; when they run out
   before a candidate is accepted the result is `None`, where the source
   would keep drawing. `attempts` is the number of candidates built.
   */
  method CreateRandomNonFloat(length: int, draws: seq<seq<nat>>) returns (result: Option<string>, attempts: nat)
    requires forall j :: 0 <= j < |draws| ==> IsDraw(draws[j], length)
    ensures var cands := Candidates(length, draws); var k := FirstNonFloat(cands);
      && result == (if k < |cands| then Some(cands[k]) else None)
      && attempts == (if k < |cands| then k + 1 else |cands|)
    ensures result.Some? ==>
      && IsNonFloat(result.value)
      && |result.value| == DrawLength(length)
      && (forall i :: 0 <= i < |result.value| ==> result.value[i] in AllowedChars)
    ensures forall j :: 0 <= j < attempts && (result.None? || j < attempts - 1) ==>
      !IsNonFloat(Candidates(length, draws)[j])
  {
    ghost var cands := Candidates(length, draws);
    attempts := 0;
    while attempts < |draws|
      invariant attempts <= |draws|
      invariant forall j :: 0 <= j < attempts ==> !IsNonFloat(cands[j])
      invariant attempts <= FirstNonFloat(cands)
    {
      var candidate := Spell(draws[attempts]);
      assert candidate == cands[attempts];
      attempts := attempts + 1;
      if IsNonFloat(candidate) {
        assert FirstNonFloat(cands) == attempts - 1;
        assert |candidate| == DrawLength(length);
        return Some(candidate), attempts;
      }
    }
    assert FirstNonFloat(cands) == |cands|;
    result := None;
  }
}
