/**
 * The few string operations the client code relies on: `startsWith`,
 * `includes`, the first match of `/\d+/` read with `parseInt(_, 10)`, and
 * the decimal text a template literal prints for an integer.
 */
module Text {
  import opened Cards

  predicate IsDigit(c: char) {
    '0' <= c <= '9'
  }

  /** The digit character for `d`. */
  function DigitChar(d: nat): (c: char)
    requires d < 10
    ensures IsDigit(c)
  {
    "0123456789"[d]
  }

  /** The value of a digit character. */
  function DigitValue(c: char): (d: nat)
    requires IsDigit(c)
    ensures d < 10
  {
    (c as int - '0' as int) as nat
  }

  lemma DigitRoundTrip(d: nat)
    requires d < 10
    ensures DigitValue(DigitChar(d)) == d
  {
  }

  predicate AllDigits(s: string) {
    forall k :: 0 <= k < |s| ==> IsDigit(s[k])
  }

  /** The decimal text of a natural number, without leading zeros. */
  function Decimal(n: nat): (s: string)
    decreases n
  {
    if n < 10 then [DigitChar(n)] else Decimal(n / 10) + [DigitChar(n % 10)]
  }

  /** How `${v}` prints an integer. */
  function IntText(v: int): string {
    if v < 0 then "-" + Decimal(-v) else Decimal(v)
  }

  /** `parseInt` on text that starts with a digit: read digits from the
      left, most significant first, until the first non-digit. */
  function ReadDigits(acc: nat, s: string): nat
    decreases |s|
  {
    if s != [] && IsDigit(s[0]) then ReadDigits(acc * 10 + DigitValue(s[0]), s[1..]) else acc
  }

  /** Reading one more digit multiplies what was read by ten and adds it. */
  lemma {:induction false} ReadDigitsSnoc(acc: nat, ds: string, d: char)
    requires AllDigits(ds) && IsDigit(d)
    ensures ReadDigits(acc, ds + [d]) == ReadDigits(acc, ds) * 10 + DigitValue(d)
    decreases |ds|
  {
    if ds == [] {
      assert ds + [d] == [d];
    } else {
      assert (ds + [d])[1..] == ds[1..] + [d];
      ReadDigitsSnoc(acc * 10 + DigitValue(ds[0]), ds[1..], d);
    }
  }

  /** Reading stops at the first character that is not a digit. */
  lemma {:induction false} ReadDigitsStops(acc: nat, ds: string, post: string)
    requires AllDigits(ds)
    requires post != [] ==> !IsDigit(post[0])
    ensures ReadDigits(acc, ds + post) == ReadDigits(acc, ds)
    decreases |ds|
  {
    if ds == [] {
      assert ds + post == post;
    } else {
      assert (ds + post)[1..] == ds[1..] + post;
      ReadDigitsStops(acc * 10 + DigitValue(ds[0]), ds[1..], post);
    }
  }

  /** Decimal text is a non-empty run of digits that reads back as the
      number it was printed from. */
  lemma {:induction false} DecimalRoundTrip(n: nat)
    ensures |Decimal(n)| > 0 && AllDigits(Decimal(n))
    ensures ReadDigits(0, Decimal(n)) == n
    decreases n
  {
    if n >= 10 {
      DecimalRoundTrip(n / 10);
      DigitRoundTrip(n % 10);
      ReadDigitsSnoc(0, Decimal(n / 10), DigitChar(n % 10));
    } else {
      DigitRoundTrip(n);
    }
  }

  /** `s.startsWith(p)`, compared character by character. */
  predicate StartsWith(s: string, p: string) {
    p == [] || (s != [] && s[0] == p[0] && StartsWith(s[1..], p[1..]))
  }

  /** `startsWith` holds exactly when `p` is a prefix of `s`. */
  lemma {:induction false} StartsWithPrefix(s: string, p: string)
    ensures StartsWith(s, p) <==> |p| <= |s| && s[..|p|] == p
  {
    if p != [] && s != [] {
      StartsWithPrefix(s[1..], p[1..]);
      if |p| <= |s| && s[..|p|] == p {
        assert s[1..][..|p| - 1] == s[..|p|][1..];
      }
      if StartsWith(s, p) {
        assert s[..|p|] == [s[0]] + s[1..][..|p| - 1];
        assert p == [p[0]] + p[1..];
      }
    }
  }

  /** `s.includes(p)`, scanning from the front. */
  predicate Contains(s: string, p: string)
    decreases |s|
  {
    StartsWith(s, p) || (s != [] && Contains(s[1..], p))
  }

  /** An occurrence at position `k` makes `includes` true. */
  lemma {:induction false} ContainsFrom(s: string, p: string, k: nat)
    requires k <= |s| && StartsWith(s[k..], p)
    ensures Contains(s, p)
    decreases k
  {
    if k > 0 {
      assert s[1..][k - 1..] == s[k..];
      ContainsFrom(s[1..], p, k - 1);
    }
  }

  /** `includes` is true exactly when the pattern starts at some
      position. */
  lemma {:induction false} ContainsAt(s: string, p: string)
    ensures Contains(s, p) <==> exists k :: 0 <= k <= |s| && StartsWith(s[k..], p)
    decreases |s|
  {
    if exists k :: 0 <= k <= |s| && StartsWith(s[k..], p) {
      var k :| 0 <= k <= |s| && StartsWith(s[k..], p);
      ContainsFrom(s, p, k);
    }
    if Contains(s, p) {
      if StartsWith(s, p) {
        assert s[0..] == s;
      } else {
        ContainsAt(s[1..], p);
        var k :| 0 <= k <= |s[1..]| && StartsWith(s[1..][k..], p);
        assert s[1..][k..] == s[k + 1..];
      }
    }
  }

  /** `parseInt(s.match(/\d+/)[0], 10)`: the first run of digits in `s`, or
      `None` where `match` finds nothing (and the code reading `[0]` of
      `null` fails). */
  function FirstNumber(s: string): Option<nat> {
    if s == [] then None
    else if IsDigit(s[0]) then Some(ReadDigits(0, s))
    else FirstNumber(s[1..])
  }

  /** Text with no digit before a printed number, and no digit right after
      it, yields that number. */
  lemma {:induction false} FirstNumberOf(pre: string, n: nat, post: string)
    requires forall k :: 0 <= k < |pre| ==> !IsDigit(pre[k])
    requires post != [] ==> !IsDigit(post[0])
    ensures FirstNumber(pre + Decimal(n) + post) == Some(n)
    decreases |pre|
  {
    DecimalRoundTrip(n);
    var s := pre + Decimal(n) + post;
    if pre == [] {
      assert s == Decimal(n) + post;
      ReadDigitsStops(0, Decimal(n), post);
    } else {
      assert s[1..] == pre[1..] + Decimal(n) + post;
      FirstNumberOf(pre[1..], n, post);
    }
  }

  /** A string without digits has no number. */
  lemma {:induction false} NoDigitsNoNumber(s: string)
    requires forall k :: 0 <= k < |s| ==> !IsDigit(s[k])
    ensures FirstNumber(s) == None
    decreases |s|
  {
    if s != [] {
      NoDigitsNoNumber(s[1..]);
    }
  }
}
