/** The frame number in a pose-data file name: the first run of digits that
    is followed by a dot and a word character (an extension); failing that,
    the last run of digits; failing that, a ValueError. Digits and word
    characters are the ASCII ones. */
module FrameNumbers {
  import opened Common

  predicate IsDigit(c: char)
  {
    '0' <= c <= '9'
  }

  predicate IsWordChar(c: char)
  {
    IsDigit(c) || 'a' <= c <= 'z' || 'A' <= c <= 'Z' || c == '_'
  }

  /** The decimal value of a string of digits, as int() reads it. */
  function DecimalValue(d: string): nat
  {
    if d == [] then 0
    else
      var last := d[|d| - 1] as int - '0' as int;
      DecimalValue(d[..|d| - 1]) * 10 + (if 0 <= last then last else 0)
  }

  /** The end of the run of digits starting at i. */
  function RunEnd(s: string, i: nat): (b: nat)
    requires i <= |s|
    ensures i <= b <= |s|
    ensures forall k :: i <= k < b ==> IsDigit(s[k])
    ensures b == |s| || !IsDigit(s[b])
    decreases |s| - i
  {
    if i < |s| && IsDigit(s[i]) then RunEnd(s, i + 1) else i
  }

  /** s[a..b] is a whole run of digits: not extendable on either side. */
  ghost predicate IsRun(s: string, a: int, b: int)
  {
    && 0 <= a < b <= |s|
    && (forall k :: a <= k < b ==> IsDigit(s[k]))
    && (a == 0 || !IsDigit(s[a - 1]))
    && (b == |s| || !IsDigit(s[b]))
  }

  /** A dot and a word character follow position b. */
  predicate HasExtension(s: string, b: int)
  {
    0 <= b && b + 1 < |s| && s[b] == '.' && IsWordChar(s[b + 1])
  }

  /** s[a..b] is the leftmost run followed by an extension. */
  ghost predicate FirstExtRun(s: string, a: int, b: int)
  {
    IsRun(s, a, b) && HasExtension(s, b) &&
    forall a2, b2 :: IsRun(s, a2, b2) && HasExtension(s, b2) ==> a <= a2
  }

  /** s[a..b] is the rightmost run. */
  ghost predicate LastRun(s: string, a: int, b: int)
  {
    IsRun(s, a, b) && forall a2, b2 :: IsRun(s, a2, b2) ==> a2 <= a
  }

  ghost predicate NoExtRun(s: string)
  {
    forall a, b :: IsRun(s, a, b) ==> !HasExtension(s, b)
  }

  /** The scan from position i, having seen the runs before i (the last of
      them is `last`) and none followed by an extension. */
  function Scan(s: string, i: nat, last: Option<(nat, nat)>): Result<nat, string>
    requires i <= |s|
    requires last.Some? ==> last.value.0 <= last.value.1 <= |s|
    decreases |s| - i
  {
    if i == |s| then
      match last
      case None => Err("No frame number found in filename: " + s)
      case Some((a, b)) => Ok(DecimalValue(s[a..b]))
    else if IsDigit(s[i]) then
      var b := RunEnd(s, i);
      if HasExtension(s, b) then Ok(DecimalValue(s[i..b]))
      else Scan(s, b, Some((i, b)))
    else Scan(s, i + 1, last)
  }

  /** _extract_frame_number. */
  function ExtractFrameNumber(filename: string): (r: Result<nat, string>)
    ensures r.Err? <==> forall k :: 0 <= k < |filename| ==> !IsDigit(filename[k])
  {
    ScanSpec(filename, 0, None);
    if Scan(filename, 0, None).Ok? then
      ScanFindsDigit(filename, 0, None);
      Scan(filename, 0, None)
    else Scan(filename, 0, None)
  }

  /** A run is determined by where it starts. */
  lemma RunUnique(s: string, a: int, b1: int, b2: int)
    requires IsRun(s, a, b1) && IsRun(s, a, b2)
    ensures b1 == b2
  {
  }

  /** The scan's invariant: i does not split a run; the runs starting before
      i end by i and have no extension; `last` is the rightmost of them. */
  ghost predicate ScanInv(s: string, i: nat, last: Option<(nat, nat)>)
  {
    && i <= |s|
    && (i == 0 || i == |s| || !IsDigit(s[i - 1]) || !IsDigit(s[i]))
    && (forall a, b :: IsRun(s, a, b) && a < i ==> !HasExtension(s, b) && b <= i)
    && (last.None? ==> forall a, b :: IsRun(s, a, b) ==> a >= i)
    && (last.Some? ==>
          && IsRun(s, last.value.0, last.value.1) && last.value.0 < i
          && forall a, b :: IsRun(s, a, b) && a < i ==> a <= last.value.0)
  }

  lemma {:induction false} ScanSpec(s: string, i: nat, last: Option<(nat, nat)>)
    requires ScanInv(s, i, last)
    requires last.Some? ==> last.value.0 <= last.value.1 <= |s|
    ensures forall a, b :: FirstExtRun(s, a, b) ==> Scan(s, i, last) == Ok(DecimalValue(s[a..b]))
    ensures NoExtRun(s) ==> forall a, b :: LastRun(s, a, b) ==> Scan(s, i, last) == Ok(DecimalValue(s[a..b]))
    ensures Scan(s, i, last).Err? ==> last.None? && forall k :: i <= k < |s| ==> !IsDigit(s[k])
    decreases |s| - i
  {
    if i == |s| {
      forall a, b | LastRun(s, a, b) ensures last == Some((a, b)) {
        RunUnique(s, a, b, last.value.1);
      }
    } else if IsDigit(s[i]) {
      var b := RunEnd(s, i);
      assert IsRun(s, i, b);
      if HasExtension(s, b) {
        forall a, b2 | FirstExtRun(s, a, b2) ensures a == i && b2 == b {
          RunUnique(s, i, b, b2);
        }
      } else {
        forall a, b2 | IsRun(s, a, b2) && a < b ensures a < i || (a == i && b2 == b) {
          if a >= i {
            assert a == i;
            RunUnique(s, i, b, b2);
          }
        }
        ScanSpec(s, b, Some((i, b)));
      }
    } else {
      ScanSpec(s, i + 1, last);
    }
  }

  /** The frame number is the value of the leftmost run of digits followed by
      an extension; with no such run, that of the rightmost run; with no digit
      at all, a ValueError. */
  lemma ExtractFrameNumberSpec(s: string)
    ensures forall a, b :: FirstExtRun(s, a, b) ==> ExtractFrameNumber(s) == Ok(DecimalValue(s[a..b]))
    ensures NoExtRun(s) ==> forall a, b :: LastRun(s, a, b) ==> ExtractFrameNumber(s) == Ok(DecimalValue(s[a..b]))
    ensures ExtractFrameNumber(s).Err? <==> forall k :: 0 <= k < |s| ==> !IsDigit(s[k])
  {
    ScanSpec(s, 0, None);
  }

  /** A successful scan has seen a digit. */
  lemma {:induction false} ScanFindsDigit(s: string, i: nat, last: Option<(nat, nat)>)
    requires i <= |s|
    requires last.Some? ==> last.value.0 < last.value.1 <= |s| && IsDigit(s[last.value.0])
    requires Scan(s, i, last).Ok?
    ensures exists k :: 0 <= k < |s| && IsDigit(s[k])
    decreases |s| - i
  {
    if i == |s| {
    } else if IsDigit(s[i]) {
    } else {
      ScanFindsDigit(s, i + 1, last);
    }
  }
}
