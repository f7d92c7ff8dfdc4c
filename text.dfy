/**
 * The few string operations the script performs: `String.prototype.split`
 * on a one-character separator and the decimal rendering of the 1-based
 * indices that end the `templatesN` / `controllersN` keys.
 */
module Text {

  /** `s.split(c)`: the maximal runs between separators, empty runs included. */
  function Split(s: string, c: char): (r: seq<string>)
    ensures |r| >= 1
    ensures forall t :: t in r ==> c !in t
    ensures r[0] <= s && (|r[0]| < |s| ==> s[|r[0]|] == c)
  {
    if |s| == 0 then [""]
    else
      var rest := Split(s[1..], c);
      if s[0] == c then [""] + rest else [[s[0]] + rest[0]] + rest[1..]
  }

  /** `ts.join(c)`. */
  function Join(ts: seq<string>, c: char): string
    requires |ts| >= 1
  {
    if |ts| == 1 then ts[0] else ts[0] + [c] + Join(ts[1..], c)
  }

  /** Joining the pieces of a split gives the original text back. */
  lemma {:induction false} JoinSplit(s: string, c: char)
    ensures Join(Split(s, c), c) == s
  {
    if |s| > 0 {
      var rest := Split(s[1..], c);
      JoinSplit(s[1..], c);
      if s[0] == c {
        assert Split(s, c) == [""] + rest;
        assert Split(s, c)[1..] == rest;
      } else {
        var r := Split(s, c);
        assert r == [[s[0]] + rest[0]] + rest[1..];
        if |rest| == 1 {
          assert Join(r, c) == [s[0]] + rest[0];
        } else {
          assert r[1..] == rest[1..];
          assert Join(r, c) == [s[0]] + rest[0] + [c] + Join(rest[1..], c);
        }
        assert s == [s[0]] + s[1..];
      }
    }
  }

  /** Splitting a join of separator-free pieces gives the pieces back. */
  lemma {:induction false} SplitJoin(ts: seq<string>, c: char)
    requires |ts| >= 1
    requires forall t :: t in ts ==> c !in t
    ensures Split(Join(ts, c), c) == ts
  {
    if |ts| == 1 {
      SplitFree(ts[0], c);
    } else {
      SplitJoin(ts[1..], c);
      SplitPrefix(ts[0], Join(ts[1..], c), c);
      assert ts == [ts[0]] + ts[1..];
    }
  }

  /** A text without the separator is a single piece. */
  lemma {:induction false} SplitFree(t: string, c: char)
    requires c !in t
    ensures Split(t, c) == [t]
  {
    if |t| > 0 {
      SplitFree(t[1..], c);
      assert t == [t[0]] + t[1..];
    }
  }

  /** A separator-free text in front of a separator becomes the first piece. */
  lemma {:induction false} SplitPrefix(t: string, u: string, c: char)
    requires c !in t
    ensures Split(t + [c] + u, c) == [t] + Split(u, c)
  {
    if |t| == 0 {
      assert t + [c] + u == [c] + u;
      assert ([c] + u)[1..] == u;
    } else {
      var s := t + [c] + u;
      assert s[0] == t[0] && s[1..] == t[1..] + [c] + u;
      SplitPrefix(t[1..], u, c);
      var rest := Split(s[1..], c);
      calc {
        Split(s, c);
        [[s[0]] + rest[0]] + rest[1..];
        { assert rest == [t[1..]] + Split(u, c); }
        [[t[0]] + t[1..]] + Split(u, c);
        { assert [t[0]] + t[1..] == t; }
        [t] + Split(u, c);
      }
    }
  }

  const DecimalDigits := "0123456789"

  /** Decimal rendering, as a template literal renders a non-negative integer. */
  function NatToString(n: nat): (s: string)
    ensures |s| >= 1
    ensures forall ch :: ch in s ==> ch in DecimalDigits
    decreases n
  {
    if n < 10 then [DecimalDigits[n]] else NatToString(n / 10) + [DecimalDigits[n % 10]]
  }

  function DigitValue(ch: char): nat
  {
    if '0' <= ch <= '9' then (ch - '0') as nat else 0
  }

  /** Reading a decimal rendering back. */
  function ParseDecimal(s: string): nat
  {
    if |s| == 0 then 0 else ParseDecimal(s[..|s| - 1]) * 10 + DigitValue(s[|s| - 1])
  }

  lemma {:induction false} ParseRendered(n: nat)
    ensures ParseDecimal(NatToString(n)) == n
    decreases n
  {
    if n >= 10 {
      ParseRendered(n / 10);
      var s := NatToString(n);
      assert s[..|s| - 1] == NatToString(n / 10);
    }
  }

  /** Different indices render differently, so `templates1`, `templates2`, ... never collide. */
  lemma NatToStringInjective(a: nat, b: nat)
    requires NatToString(a) == NatToString(b)
    ensures a == b
  {
    ParseRendered(a);
    ParseRendered(b);
  }
}
