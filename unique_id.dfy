/**
 * The message-identifier generator of src/index.ts: the current time in
 * base 36, a '-', a random base-36 suffix, cut to `length` characters.
 * The clock (Date.now()) and the random suffix are parameters.
 */
module UniqueId {
  import opened Common
  import Radix

  /** The length used when the caller passes none. */
  const DefaultLength: int := 16

  /** `substring(2, 10)` keeps at most eight fraction digits of the random number. */
  const MaxRandomDigits: nat := 8

  const Separator: char := '-'

  /**
   * What `Math.random().toString(36).substring(2, 10)` can produce: at most
   * eight base-36 digits (fewer when the fraction has fewer digits).
   */
  predicate IsRandomSuffix(r: string) {
    |r| <= MaxRandomDigits && Radix.AllDigits(r, 36)
  }

  /** `Date.now().toString(36)`. */
  function TimestampText(now: nat): string {
    Radix.ToRadixString(now, 36)
  }

  /** The template literal `${timestamp}-${randomStr}` before truncation. */
  function Untruncated(now: nat, randomPart: string): string {
    TimestampText(now) + [Separator] + randomPart
  }

  /**
   * `s.slice(0, end)` (ECMA-262, section 22.1.3.22): a negative end counts
   * back from the end of the string, and the end is clamped to [0, |s|].
   */
  function SliceTo(s: string, end: int): (r: string)
    ensures r <= s
    ensures end >= 0 ==> |r| == Min(end, |s|)
    ensures end < 0 ==> |r| == Max(|s| + end, 0)
  {
    if end < 0 then s[..Max(|s| + end, 0)] else s[..Min(end, |s|)]
  }

  /** `generateUniqueId(length)`, with the clock and the random suffix given. */
  function GenerateUniqueId(now: nat, randomPart: string, length: int := DefaultLength): (id: string)
    ensures id <= Untruncated(now, randomPart)
    ensures 0 <= length ==> |id| <= length
    ensures 0 <= length ==> |id| == Min(length, |TimestampText(now)| + 1 + |randomPart|)
  {
    SliceTo(Untruncated(now, randomPart), length)
  }

  /** The default call never yields more than sixteen characters. */
  lemma DefaultIdAtMostSixteen(now: nat, randomPart: string)
    ensures |GenerateUniqueId(now, randomPart)| <= 16
  {
  }

  /** Recovers the creation time from an identifier: the digits before the first '-'. */
  function ParseTimestamp(id: string): Option<nat> {
    match IndexOf(id, Separator)
    case None => None
    case Some(i) =>
      if Radix.Canonical(id[..i], 36) then Some(Radix.Value(id[..i], 36)) else None
  }

  /**
   * When the timestamp digits are shorter than `length`, the identifier is
   * the timestamp digits followed by '-': it is never purely alphanumeric.
   */
  lemma SeparatorFollowsTimestamp(now: nat, randomPart: string, length: int)
    requires |TimestampText(now)| < length
    ensures var id := GenerateUniqueId(now, randomPart, length);
      |id| > |TimestampText(now)| &&
      id[..|TimestampText(now)|] == TimestampText(now) &&
      id[|TimestampText(now)|] == Separator
  {
  }

  /** An identifier that keeps its '-' gives back the time it was made at. */
  lemma {:induction false} TimestampRoundTrip(now: nat, randomPart: string, length: int)
    requires |TimestampText(now)| < length
    ensures ParseTimestamp(GenerateUniqueId(now, randomPart, length)) == Some(now)
  {
    var ts := TimestampText(now);
    var id := GenerateUniqueId(now, randomPart, length);
    SeparatorFollowsTimestamp(now, randomPart, length);
    assert forall k :: 0 <= k < |ts| ==> Radix.IsLowerAlnum(ts[k]);
    assert id[..|ts|] == ts;
    assert Separator !in ts;
    assert IndexOf(id, Separator) == Some(|ts|);
    Radix.ValueOfToRadixString(now, 36);
  }

  /**
   * Every character of an identifier is a base-36 digit, except the single
   * '-' right after the timestamp digits when it survives the cut.
   */
  lemma IdAlphabet(now: nat, randomPart: string, length: int)
    requires IsRandomSuffix(randomPart)
    ensures var id := GenerateUniqueId(now, randomPart, length);
      var t := |TimestampText(now)|;
      forall k :: 0 <= k < |id| ==>
        (k == t && id[k] == Separator) || (k != t && Radix.IsLowerAlnum(id[k]))
  {
  }

  /**
   * From 1972 to 2059 (36^7 <= now < 36^8 milliseconds) the timestamp has
   * eight digits, so a default identifier with a full random suffix is
   * sixteen characters: eight timestamp digits, '-', and seven random digits.
   */
  lemma {:induction false} DefaultIdLayoutInCurrentEra(now: nat, randomPart: string)
    requires Radix.Pow(36, 7) <= now < Radix.Pow(36, 8)
    requires |randomPart| == MaxRandomDigits
    ensures var id := GenerateUniqueId(now, randomPart);
      |id| == 16 && id[8] == Separator && id[9..] == randomPart[..7] &&
      ParseTimestamp(id) == Some(now)
  {
    Radix.ToRadixStringLength(now, 36, 8);
    TimestampRoundTrip(now, randomPart, DefaultLength);
    var id := GenerateUniqueId(now, randomPart);
    var full := Untruncated(now, randomPart);
    assert id == full[..16];
    assert full[9..16] == randomPart[..7];
  }
}
