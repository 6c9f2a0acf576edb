/**
 * String helpers the extractor relies on: decimal digits (for the JQL cursor
 * and the timestamp fields), Python's `sep.join(parts)` and `s.split(sep)`.
 */
module Text {
  import opened Wrappers

  predicate IsDigit(c: char) { '0' <= c <= '9' }

  predicate AllDigits(s: string) { forall i :: 0 <= i < |s| ==> IsDigit(s[i]) }

  function DigitChar(d: nat): (c: char)
    requires d < 10
    ensures IsDigit(c)
  {
    ('0' as int + d) as char
  }

  function DigitValue(c: char): (d: nat)
    requires IsDigit(c)
    ensures d < 10 && DigitChar(d) == c
  {
    c as int - '0' as int
  }

  /** The number a string of decimal digits denotes (most significant digit first). */
  function NumberOf(s: string): nat
    requires AllDigits(s)
    decreases |s|
  {
    if s == [] then 0 else NumberOf(s[..|s| - 1]) * 10 + DigitValue(s[|s| - 1])
  }

  function Pow10(w: nat): (p: nat)
    ensures p >= 1
  {
    if w == 0 then 1 else 10 * Pow10(w - 1)
  }

  /** `n` written with exactly `width` digits, zero-padded on the left (strftime's `%m`, `%d`, `%Y`). */
  function Padded(n: nat, width: nat): (s: string)
    requires n < Pow10(width)
    ensures |s| == width && AllDigits(s) && NumberOf(s) == n
    decreases width
  {
    if width == 0 then []
    else
      var s := Padded(n / 10, width - 1) + [DigitChar(n % 10)];
      assert s[..|s| - 1] == Padded(n / 10, width - 1);
      s
  }

  /** A digit string is the padded rendering of its own value: the inverse direction of Padded. */
  lemma {:induction false} PaddedOfNumber(s: string)
    requires AllDigits(s)
    ensures NumberOf(s) < Pow10(|s|) && Padded(NumberOf(s), |s|) == s
    decreases |s|
  {
    if s != [] {
      var init := s[..|s| - 1];
      assert AllDigits(init);
      PaddedOfNumber(init);
      var n := NumberOf(s);
      assert n / 10 == NumberOf(init) && n % 10 == DigitValue(s[|s| - 1]);
      assert s == init + [s[|s| - 1]];
    }
  }

  /** The shortest decimal rendering of `n`, as Python's `f'{n}'` prints an int. */
  function Decimal(n: nat): (s: string)
    ensures |s| >= 1 && AllDigits(s) && NumberOf(s) == n
    ensures s[0] == '0' ==> s == "0"
    decreases n
  {
    if n < 10 then [DigitChar(n)]
    else
      var s := Decimal(n / 10) + [DigitChar(n % 10)];
      assert s[..|s| - 1] == Decimal(n / 10);
      assert s[0] == Decimal(n / 10)[0];
      s
  }

  /** Python's `sep.join(parts)`. */
  function Join(parts: seq<string>, sep: string): string
    decreases |parts|
  {
    if parts == [] then ""
    else if |parts| == 1 then parts[0]
    else parts[0] + sep + Join(parts[1..], sep)
  }

  predicate OccursAt(s: string, sep: string, k: nat)
  {
    k + |sep| <= |s| && s[k..k + |sep|] == sep
  }

  /** An occurrence at `k` in `s` is one at `k - 1` once the first character is dropped. */
  lemma OccursShifted(s: string, sep: string, k: nat)
    requires 1 <= k <= |s|
    ensures OccursAt(s, sep, k) <==> OccursAt(s[1..], sep, k - 1)
  {
    if k + |sep| <= |s| {
      var here, there := s[k..k + |sep|], s[1..][k - 1..k - 1 + |sep|];
      forall j | 0 <= j < |sep| ensures here[j] == there[j] {
      }
      assert here == there;
    }
  }

  /** Python's `s.find(sep)`: the first position at which `sep` occurs in `s`. */
  function IndexOf(s: string, sep: string): (r: Option<nat>)
    requires sep != []
    ensures r.Some? ==> OccursAt(s, sep, r.value)
    ensures r.Some? ==> forall k :: 0 <= k < r.value ==> !OccursAt(s, sep, k)
    ensures r.None? ==> forall k :: 0 <= k <= |s| ==> !OccursAt(s, sep, k)
    decreases |s|
  {
    if |s| < |sep| then None
    else if s[..|sep|] == sep then Some(0)
    else
      var rest := IndexOf(s[1..], sep);
      assert forall k :: 1 <= k <= |s| ==> (OccursAt(s, sep, k) <==> OccursAt(s[1..], sep, k - 1)) by {
        forall k | 1 <= k <= |s| ensures OccursAt(s, sep, k) <==> OccursAt(s[1..], sep, k - 1) {
          OccursShifted(s, sep, k);
        }
      }
      match rest
      case None => None
      case Some(i) => Some(i + 1)
  }

  /** `sep` occurs nowhere in `p`. */
  predicate SepFree(p: string, sep: string)
  {
    forall k :: 0 <= k <= |p| ==> !OccursAt(p, sep, k)
  }

  /** The part of `s` before the first occurrence of `sep` is free of `sep`. */
  lemma PrefixSepFree(s: string, sep: string, i: nat)
    requires sep != [] && i <= |s|
    requires forall k :: 0 <= k < i ==> !OccursAt(s, sep, k)
    ensures SepFree(s[..i], sep)
  {
    var p := s[..i];
    forall k | 0 <= k <= |p| ensures !OccursAt(p, sep, k) {
      if k + |sep| <= |p| {
        assert k < i && !OccursAt(s, sep, k);
        assert p[k..k + |sep|] == s[k..k + |sep|];
      }
    }
  }

  /** Python's `s.split(sep)`: the pieces between the occurrences of `sep`, left to right. */
  function Split(s: string, sep: string): (parts: seq<string>)
    requires sep != []
    ensures |parts| >= 1
    ensures Join(parts, sep) == s
    ensures forall j :: 0 <= j < |parts| ==> SepFree(parts[j], sep)
    decreases |s|
  {
    match IndexOf(s, sep)
    case None => [s]
    case Some(i) =>
      var rest := Split(s[i + |sep|..], sep);
      var parts := [s[..i]] + rest;
      assert parts[1..] == rest;
      assert s == s[..i] + sep + s[i + |sep|..];
      PrefixSepFree(s, sep, i);
      assert forall j :: 1 <= j < |parts| ==> parts[j] == rest[j - 1];
      parts
  }

  /** The first piece of `s.split(c)` is the longest prefix of `s` free of `c`. */
  lemma FirstPieceBefore(s: string, c: char)
    ensures var p := Split(s, [c])[0];
      p <= s && c !in p && (|p| < |s| ==> s[|p|] == c)
  {
    var p := Split(s, [c])[0];
    forall k | 0 <= k < |s| ensures OccursAt(s, [c], k) <==> s[k] == c {
      assert s[k..k + 1] == [s[k]];
    }
    match IndexOf(s, [c])
    case None =>
      assert p == s;
    case Some(i) =>
      assert p == s[..i];
  }

  /** No position before `|p|` can start `sep` when `sep[0]` does not occur in `p`. */
  lemma FirstOccurrenceAfter(p: string, sep: string, rest: string)
    requires sep != [] && sep[0] !in p
    ensures IndexOf(p + sep + rest, sep) == Some(|p|)
  {
    var s := p + sep + rest;
    assert s[|p|..|p| + |sep|] == sep;
    assert OccursAt(s, sep, |p|);
    forall k | 0 <= k < |p| ensures !OccursAt(s, sep, k) {
      assert s[k] == p[k] && p[k] in p;
      if k + |sep| <= |s| {
        assert s[k..k + |sep|][0] == s[k];
      }
    }
  }

  lemma NoOccurrence(p: string, sep: string)
    requires sep != [] && sep[0] !in p
    ensures IndexOf(p, sep) == None
  {
    forall k | 0 <= k <= |p| ensures !OccursAt(p, sep, k) {
      if k + |sep| <= |p| {
        assert p[k..k + |sep|][0] == p[k] && p[k] in p;
      }
    }
  }

  /** Joining and then splitting gives back the parts, provided no part contains the separator's first character. */
  lemma {:induction false} SplitJoin(parts: seq<string>, sep: string)
    requires sep != [] && |parts| >= 1
    requires forall i :: 0 <= i < |parts| ==> sep[0] !in parts[i]
    ensures Split(Join(parts, sep), sep) == parts
    decreases |parts|
  {
    if |parts| == 1 {
      NoOccurrence(parts[0], sep);
    } else {
      var head, tail := parts[0], parts[1..];
      var rest := Join(tail, sep);
      var s := head + sep + rest;
      assert Join(parts, sep) == s;
      FirstOccurrenceAfter(head, sep, rest);
      assert s[..|head|] == head;
      assert s[|head| + |sep|..] == rest;
      assert Split(s, sep) == [head] + Split(rest, sep);
      SplitJoin(tail, sep);
      assert parts == [head] + tail;
    }
  }
}
