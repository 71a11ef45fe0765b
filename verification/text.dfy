/** Python string primitives the scripts rely on, written out exactly:
    `str.replace`, argument-less `str.split()`, `str.split(sep)`, `str()` of an
    integer, and the part of `float()` the decoded feeds use. */
module Text {
  import opened Base

  // ---------------------------------------------------------------------------
  // Whitespace splitting: `s.split()`

  /** `str.isspace` for one character: the separators of argument-less `split()`. */
  predicate IsSpace(c: char) {
    || c == ' '
    || ('\t' <= c <= '\r')                      // \t \n \x0b \x0c \r
    || ('\U{1C}' <= c <= '\U{1F}')
    || c == '\U{85}' || c == '\U{A0}' || c == '\U{1680}'
    || ('\U{2000}' <= c <= '\U{200A}')
    || c == '\U{2028}' || c == '\U{2029}' || c == '\U{202F}' || c == '\U{205F}'
    || c == '\U{3000}'
  }

  predicate NoSpace(t: string) {
    forall i :: 0 <= i < |t| ==> !IsSpace(t[i])
  }

  /** A token as `split()` produces it: non-empty, without whitespace. */
  predicate IsWord(t: string) {
    |t| > 0 && NoSpace(t)
  }

  /** `s.split()`: the maximal runs of non-whitespace characters of `s`, in order. */
  function SplitWs(s: string): (r: seq<string>)
    ensures forall k :: 0 <= k < |r| ==> IsWord(r[k])
  {
    SplitScan(s, "")
  }

  /** Scans `s` while `cur` holds the characters of the token in progress. */
  function SplitScan(s: string, cur: string): (r: seq<string>)
    requires NoSpace(cur)
    ensures forall k :: 0 <= k < |r| ==> IsWord(r[k])
    decreases |s|
  {
    if |s| == 0 then
      (if cur == "" then [] else [cur])
    else if IsSpace(s[0]) then
      (if cur == "" then SplitScan(s[1..], "") else [cur] + SplitScan(s[1..], ""))
    else
      SplitScan(s[1..], cur + [s[0]])
  }

  lemma {:induction false} SplitScanAtSpace(a: string, w: char, b: string, cur: string)
    requires NoSpace(cur) && IsSpace(w)
    ensures SplitScan(a + [w] + b, cur) == SplitScan(a, cur) + SplitScan(b, "")
    decreases |a|
  {
    if |a| == 0 {
      assert a + [w] + b == [w] + b;
      assert ([w] + b)[1..] == b;
    } else {
      assert (a + [w] + b)[0] == a[0];
      assert (a + [w] + b)[1..] == a[1..] + [w] + b;
      if IsSpace(a[0]) {
        SplitScanAtSpace(a[1..], w, b, "");
      } else {
        SplitScanAtSpace(a[1..], w, b, cur + [a[0]]);
      }
    }
  }

  lemma {:induction false} SplitScanWord(t: string, cur: string)
    requires NoSpace(cur) && NoSpace(t)
    ensures SplitScan(t, cur) == if cur + t == "" then [] else [cur + t]
    decreases |t|
  {
    if |t| > 0 {
      assert cur + t == (cur + [t[0]]) + t[1..];
      SplitScanWord(t[1..], cur + [t[0]]);
    } else {
      assert cur + t == cur;
    }
  }

  /** `split()` is the homomorphism that cuts at every whitespace character and
      keeps a whitespace-free text as one token; these three equations determine
      it completely. */
  lemma SplitWsAtSpace(a: string, w: char, b: string)
    requires IsSpace(w)
    ensures SplitWs(a + [w] + b) == SplitWs(a) + SplitWs(b)
  {
    SplitScanAtSpace(a, w, b, "");
  }

  lemma SplitWsWord(t: string)
    requires IsWord(t)
    ensures SplitWs(t) == [t]
  {
    SplitScanWord(t, "");
    assert "" + t == t;
  }

  lemma SplitWsEmpty()
    ensures SplitWs("") == []
  {
  }

  /** The whitespace-free characters of `s`, in order. */
  function WithoutSpaces(s: string): (r: string)
  {
    if |s| == 0 then "" else (if IsSpace(s[0]) then "" else [s[0]]) + WithoutSpaces(s[1..])
  }

  function Concat(ts: seq<string>): string
  {
    if |ts| == 0 then "" else ts[0] + Concat(ts[1..])
  }

  lemma {:induction false} ConcatAppend(xs: seq<string>, ys: seq<string>)
    ensures Concat(xs + ys) == Concat(xs) + Concat(ys)
    decreases |xs|
  {
    if |xs| > 0 {
      assert (xs + ys)[1..] == xs[1..] + ys;
      ConcatAppend(xs[1..], ys);
    } else {
      assert xs + ys == ys;
    }
  }

  lemma {:induction false} SplitScanKeepsText(s: string, cur: string)
    requires NoSpace(cur)
    ensures Concat(SplitScan(s, cur)) == cur + WithoutSpaces(s)
    decreases |s|
  {
    if |s| == 0 {
      assert cur + "" == cur;
    } else if IsSpace(s[0]) {
      SplitScanKeepsText(s[1..], "");
      if cur != "" {
        ConcatAppend([cur], SplitScan(s[1..], ""));
      }
    } else {
      SplitScanKeepsText(s[1..], cur + [s[0]]);
      assert cur + [s[0]] + WithoutSpaces(s[1..]) == cur + ([s[0]] + WithoutSpaces(s[1..]));
    }
  }

  /** `split()` loses nothing but the whitespace. */
  lemma SplitWsKeepsText(s: string)
    ensures Concat(SplitWs(s)) == WithoutSpaces(s)
  {
    SplitScanKeepsText(s, "");
    assert "" + WithoutSpaces(s) == WithoutSpaces(s);
  }

  // ---------------------------------------------------------------------------
  // `s.replace(pat, rep)`

  /** Python's `str.replace`: every non-overlapping occurrence of `pat`, scanned
      left to right, becomes `rep`; an empty `pat` inserts `rep` around every
      character. */
  function Replace(s: string, pat: string, rep: string): string
    decreases |s|
  {
    if |pat| == 0 then
      (if |s| == 0 then rep else rep + [s[0]] + Replace(s[1..], pat, rep))
    else if |s| < |pat| then s
    else if s[..|pat|] == pat then rep + Replace(s[|pat|..], pat, rep)
    else [s[0]] + Replace(s[1..], pat, rep)
  }

  /** True when `pat` occurs in `s` starting at position `k`. */
  predicate OccursAt(s: string, pat: string, k: int) {
    0 <= k && k + |pat| <= |s| && s[k..k + |pat|] == pat
  }

  /** Replacing a pattern that does not occur changes nothing. */
  lemma {:induction false} ReplaceAbsent(s: string, pat: string, rep: string)
    requires |pat| > 0
    requires forall k :: 0 <= k <= |s| - |pat| ==> !OccursAt(s, pat, k)
    ensures Replace(s, pat, rep) == s
    decreases |s|
  {
    if |s| >= |pat| {
      assert !OccursAt(s, pat, 0);
      assert s[..|pat|] == s[0..0 + |pat|];
      forall k | 0 <= k <= |s[1..]| - |pat|
        ensures !OccursAt(s[1..], pat, k)
      {
        assert !OccursAt(s, pat, k + 1);
        assert s[1..][k..k + |pat|] == s[k + 1..k + 1 + |pat|];
      }
      ReplaceAbsent(s[1..], pat, rep);
      assert s == [s[0]] + s[1..];
    }
  }

  /** A pattern longer than the text never occurs in it. */
  lemma ReplaceShort(s: string, pat: string, rep: string)
    requires |pat| > |s|
    ensures Replace(s, pat, rep) == s
  {
  }

  /** A character absent from the text and from the replacement stays absent. */
  lemma {:induction false} ReplaceKeepsOut(s: string, pat: string, rep: string, c: char)
    requires |pat| > 0 && c !in s && c !in rep
    ensures c !in Replace(s, pat, rep)
    decreases |s|
  {
    if |s| >= |pat| {
      if s[..|pat|] == pat {
        assert forall i :: 0 <= i < |s[|pat|..]| ==> s[|pat|..][i] == s[|pat| + i];
        ReplaceKeepsOut(s[|pat|..], pat, rep, c);
      } else {
        assert forall i :: 0 <= i < |s[1..]| ==> s[1..][i] == s[1 + i];
        ReplaceKeepsOut(s[1..], pat, rep, c);
      }
    }
  }

  /** Replacing a single character by text that lacks it removes it entirely. */
  lemma {:induction false} ReplaceRemovesChar(s: string, c: char, rep: string)
    requires c !in rep
    ensures c !in Replace(s, [c], rep)
    decreases |s|
  {
    if |s| >= 1 {
      ReplaceRemovesChar(s[1..], c, rep);
      if s[..1] == [c] {
        assert s[1..] == s[|[c]|..];
      } else {
        assert s[0] != c by { assert s[..1] == [s[0]]; }
      }
    }
  }

  /** `s` with every `c` deleted. */
  function Without(s: string, c: char): (r: string)
  {
    if |s| == 0 then "" else (if s[0] == c then "" else [s[0]]) + Without(s[1..], c)
  }

  /** `s.replace(c, "")` is the deletion of `c`. */
  lemma {:induction false} ReplaceDeletes(s: string, c: char)
    ensures Replace(s, [c], "") == Without(s, c)
    decreases |s|
  {
    if |s| >= 1 {
      ReplaceDeletes(s[1..], c);
      assert s[..1] == [s[0]];
      assert s[|[c]|..] == s[1..];
    }
  }

  lemma {:induction false} WithoutRemoves(s: string, c: char)
    ensures c !in Without(s, c)
    ensures forall d :: d != c ==> (d in Without(s, c) <==> d in s)
    decreases |s|
  {
    if |s| > 0 {
      WithoutRemoves(s[1..], c);
      assert s == [s[0]] + s[1..];
    }
  }

  lemma {:induction false} WithoutAppend(x: string, y: string, c: char)
    ensures Without(x + y, c) == Without(x, c) + Without(y, c)
    decreases |x|
  {
    if |x| > 0 {
      assert (x + y)[1..] == x[1..] + y;
      WithoutAppend(x[1..], y, c);
    } else {
      assert x + y == y;
    }
  }

  lemma {:induction false} WithoutAbsent(x: string, c: char)
    requires c !in x
    ensures Without(x, c) == x
    decreases |x|
  {
    if |x| > 0 {
      WithoutAbsent(x[1..], c);
      assert x == [x[0]] + x[1..];
    }
  }

  // ---------------------------------------------------------------------------
  // `s.split(sep)` for a one-character separator

  /** Python's `s.split(sep)`: the pieces between separators, always at least one. */
  function SplitOn(s: string, sep: char): (r: seq<string>)
    ensures |r| >= 1
    ensures forall k :: 0 <= k < |r| ==> sep !in r[k]
    decreases |s|
  {
    if |s| == 0 then [""]
    else
      var rest := SplitOn(s[1..], sep);
      if s[0] == sep then [""] + rest else [[s[0]] + rest[0]] + rest[1..]
  }

  /** `sep.join(ps)`. */
  function JoinWith(ps: seq<string>, sep: char): string
  {
    if |ps| == 0 then "" else if |ps| == 1 then ps[0] else ps[0] + [sep] + JoinWith(ps[1..], sep)
  }

  /** Joining the pieces back restores the text ... */
  lemma {:induction false} SplitOnJoin(s: string, sep: char)
    ensures JoinWith(SplitOn(s, sep), sep) == s
    decreases |s|
  {
    if |s| > 0 {
      SplitOnJoin(s[1..], sep);
      var rest := SplitOn(s[1..], sep);
      if s[0] == sep {
        assert ([""] + rest)[1..] == rest;
      } else {
        var r := [[s[0]] + rest[0]] + rest[1..];
        if |rest| == 1 {
          assert r == [[s[0]] + rest[0]];
        } else {
          assert r[1..] == rest[1..];
          assert JoinWith(rest, sep) == rest[0] + [sep] + JoinWith(rest[1..], sep);
        }
      }
      assert s == [s[0]] + s[1..];
    }
  }

  /** ... and splitting a join of separator-free pieces gives the pieces back. */
  lemma {:induction false} JoinSplitOn(ps: seq<string>, sep: char)
    requires |ps| >= 1
    requires forall k :: 0 <= k < |ps| ==> sep !in ps[k]
    ensures SplitOn(JoinWith(ps, sep), sep) == ps
    decreases |ps|, |ps[0]|
  {
    if |ps[0]| > 0 {
      var c := ps[0][0];
      var p0 := ps[0][1..];
      var ps' := [p0] + ps[1..];
      assert ps[0] == [c] + p0;
      assert c != sep && sep !in p0;
      JoinSplitOn(ps', sep);
      JoinCons(c, p0, ps[1..], sep);
      assert ps == [[c] + p0] + ps[1..];
      SplitCons(c, JoinWith(ps', sep), sep);
    } else if |ps| > 1 {
      JoinSplitOn(ps[1..], sep);
      assert ps == [""] + ps[1..];
      JoinEmptyFirst(ps[1..], sep);
      SplitSep(JoinWith(ps[1..], sep), sep);
    }
  }

  lemma JoinCons(c: char, p0: string, rest: seq<string>, sep: char)
    ensures JoinWith([[c] + p0] + rest, sep) == [c] + JoinWith([p0] + rest, sep)
  {
    assert ([[c] + p0] + rest)[1..] == rest;
    assert ([p0] + rest)[1..] == rest;
  }

  lemma JoinEmptyFirst(rest: seq<string>, sep: char)
    requires |rest| >= 1
    ensures JoinWith([""] + rest, sep) == [sep] + JoinWith(rest, sep)
  {
    assert ([""] + rest)[1..] == rest;
  }

  lemma SplitCons(c: char, t: string, sep: char)
    requires c != sep
    ensures SplitOn([c] + t, sep) == [[c] + SplitOn(t, sep)[0]] + SplitOn(t, sep)[1..]
  {
    assert ([c] + t)[1..] == t;
  }

  lemma SplitSep(t: string, sep: char)
    ensures SplitOn([sep] + t, sep) == [""] + SplitOn(t, sep)
  {
    assert ([sep] + t)[1..] == t;
  }

  /** Splitting at a separator splits the two sides independently. */
  lemma {:induction false} SplitOnSep(x: string, y: string, sep: char)
    ensures SplitOn(x + [sep] + y, sep) == SplitOn(x, sep) + SplitOn(y, sep)
    decreases |x|
  {
    if |x| == 0 {
      assert x + [sep] + y == [sep] + y;
      SplitSep(y, sep);
    } else {
      var c, x' := x[0], x[1..];
      var t := x' + [sep] + y;
      assert x + [sep] + y == [c] + t;
      assert x == [c] + x';
      SplitOnSep(x', y, sep);
      if c == sep {
        SplitSep(t, sep);
        SplitSep(x', sep);
      } else {
        SplitCons(c, t, sep);
        SplitCons(c, x', sep);
        PrependToFirst(c, SplitOn(x', sep), SplitOn(y, sep));
      }
    }
  }

  /** Text without the separator is a single piece. */
  lemma SplitOnWord(w: string, sep: char)
    requires sep !in w
    ensures SplitOn(w, sep) == [w]
  {
    JoinSplitOn([w], sep);
  }

  /** A first piece without the separator comes off whole. */
  lemma PieceCons(w: string, rest: string, sep: char)
    requires sep !in w
    ensures SplitOn(w + [sep] + rest, sep) == [w] + SplitOn(rest, sep)
  {
    SplitOnSep(w, rest, sep);
    SplitOnWord(w, sep);
  }

  /** Extending the first piece of a concatenation extends its left part. */
  lemma PrependToFirst(c: char, px: seq<string>, py: seq<string>)
    requires |px| >= 1
    ensures [[c] + (px + py)[0]] + (px + py)[1..] == ([[c] + px[0]] + px[1..]) + py
  {
    assert (px + py)[1..] == px[1..] + py;
  }

  // ---------------------------------------------------------------------------
  // Integers as text: `str(n)` and `int(s)`

  predicate IsDigit(c: char) {
    '0' <= c <= '9'
  }

  predicate AllDigits(s: string) {
    forall i :: 0 <= i < |s| ==> IsDigit(s[i])
  }

  function DigitChar(d: nat): char
    requires d < 10
  {
    ['0', '1', '2', '3', '4', '5', '6', '7', '8', '9'][d]
  }

  function DigitValue(c: char): nat
    requires IsDigit(c)
  {
    c as int - '0' as int
  }

  /** The value of a string of decimal digits, most significant first. */
  function DigitsValue(s: string): nat
    requires AllDigits(s)
    decreases |s|
  {
    if |s| == 0 then 0 else DigitsValue(s[..|s| - 1]) * 10 + DigitValue(s[|s| - 1])
  }

  /** `str(n)` for a natural number: shortest decimal digits. */
  function NatToString(n: nat): (r: string)
    ensures |r| > 0 && AllDigits(r)
  {
    if n < 10 then [DigitChar(n)] else NatToString(n / 10) + [DigitChar(n % 10)]
  }

  /** `str(i)` for an integer. */
  function IntToString(i: int): (r: string)
    ensures |r| > 0
  {
    if i < 0 then "-" + NatToString(-i) else NatToString(i)
  }

  /** `str(i)` holds only digits and a minus sign. */
  lemma IntToStringAlphabet(i: int)
    ensures forall c :: c in IntToString(i) ==> IsDigit(c) || c == '-'
  {
    var t := NatToString(if i < 0 then -i else i);
    assert forall k :: 0 <= k < |t| ==> IsDigit(t[k]);
  }

  /** `int(s)` restricted to an optional sign and decimal digits. */
  function ParseInt(s: string): (r: Option<int>)
  {
    if |s| > 0 && (s[0] == '-' || s[0] == '+') then
      (if |s| > 1 && AllDigits(s[1..]) then
         var v: int := DigitsValue(s[1..]);
         Some(if s[0] == '-' then -v else v)
       else None)
    else if |s| > 0 && AllDigits(s) then Some(DigitsValue(s))
    else None
  }

  lemma {:induction false} NatToStringValue(n: nat)
    ensures DigitsValue(NatToString(n)) == n
  {
    if n >= 10 {
      NatToStringValue(n / 10);
      var r := NatToString(n);
      assert r[..|r| - 1] == NatToString(n / 10);
    }
  }

  /** `int(str(i)) == i`. */
  lemma IntToStringRoundTrip(i: int)
    ensures ParseInt(IntToString(i)) == Some(i)
  {
    var n: nat := if i < 0 then -i else i;
    NatToStringValue(n);
    ParseIntDigits(NatToString(n));
  }

  lemma ParseIntDigits(t: string)
    requires |t| > 0 && AllDigits(t)
    ensures ParseInt(t) == Some(DigitsValue(t) as int)
    ensures ParseInt("-" + t) == Some(-(DigitsValue(t) as int))
  {
    assert IsDigit(t[0]);
    assert ("-" + t)[1..] == t;
  }

  // ---------------------------------------------------------------------------
  // Decimal numbers: the part of `float()` the feeds exercise

  function Pow10(k: nat): (r: nat)
    ensures r >= 1
  {
    if k == 0 then 1 else 10 * Pow10(k - 1)
  }

  /** The first position of `c` in `s`, or `|s|` when it is absent. */
  function IndexOf(s: string, c: char): (i: nat)
    ensures i <= |s|
    ensures forall j :: 0 <= j < i ==> s[j] != c
    ensures i < |s| ==> s[i] == c
  {
    if |s| == 0 then 0 else if s[0] == c then 0 else 1 + IndexOf(s[1..], c)
  }

  /** `float(s)` for an unsigned decimal: digits, optionally a point and more
      digits, with at least one digit in all (`"12"`, `"12.5"`, `"12."`, `".5"`). */
  function ParseUnsigned(s: string): Option<real>
  {
    var i := IndexOf(s, '.');
    FixedPoint(s[..i], if i < |s| then s[i + 1..] else "")
  }

  /** The value of the digits `ip` before and `fp` after a decimal point. */
  function FixedPoint(ip: string, fp: string): Option<real>
  {
    if AllDigits(ip) && AllDigits(fp) && |ip| + |fp| > 0 then
      Some(DigitsValue(ip) as real + DigitsValue(fp) as real / Pow10(|fp|) as real)
    else
      None
  }

  /** `float(s)` for an optionally signed decimal; `None` where Python raises ValueError. */
  function ParseDecimal(s: string): Option<real>
  {
    if |s| > 0 && (s[0] == '-' || s[0] == '+') then
      match ParseUnsigned(s[1..])
      case None => None
      case Some(v) => Some(if s[0] == '-' then -v else v)
    else
      ParseUnsigned(s)
  }

  /** `float(str(i)) == i` for every integer. */
  lemma ParseDecimalInt(i: int)
    ensures ParseDecimal(IntToString(i)) == Some(i as real)
  {
    var n: nat := if i < 0 then -i else i;
    var t := NatToString(n);
    NatToStringValue(n);
    ParseUnsignedDigits(t);
    if i < 0 {
      var m := "-" + t;
      assert m[1..] == t;
      ParseDecimalNegative(m, n as real);
    } else {
      assert IsDigit(t[0]);
      ParseDecimalUnsigned(t);
    }
  }

  lemma ParseDecimalUnsigned(u: string)
    requires |u| > 0 && u[0] != '-' && u[0] != '+'
    ensures ParseDecimal(u) == ParseUnsigned(u)
  {
  }

  lemma ParseDecimalNegative(m: string, v: real)
    requires |m| > 0 && m[0] == '-' && ParseUnsigned(m[1..]) == Some(v)
    ensures ParseDecimal(m) == Some(-v)
  {
  }

  lemma ParseUnsignedDigits(t: string)
    requires AllDigits(t) && |t| > 0
    ensures ParseUnsigned(t) == Some(DigitsValue(t) as real)
  {
    forall j | 0 <= j < |t| ensures t[j] != '.' { assert IsDigit(t[j]); }
    IndexOfAbsent(t, '.');
    assert t[..|t|] == t;
    FixedPointWhole(t);
  }

  lemma FixedPointWhole(ip: string)
    requires AllDigits(ip) && |ip| > 0
    ensures FixedPoint(ip, "") == Some(DigitsValue(ip) as real)
  {
    assert DigitsValue("") == 0 && Pow10(0) == 1;
  }

  lemma IndexOfAbsent(s: string, c: char)
    requires forall j :: 0 <= j < |s| ==> s[j] != c
    ensures IndexOf(s, c) == |s|
  {
  }

  /** `float` of digits, a point and digits is their fixed-point value. */
  lemma ParseDecimalFixed(ip: string, fp: string)
    requires AllDigits(ip) && AllDigits(fp) && |ip| > 0
    ensures ParseDecimal(ip + "." + fp) == FixedPoint(ip, fp)
    ensures FixedPoint(ip, fp).Some?
  {
    var s := ip + "." + fp;
    assert s[0] == ip[0] && IsDigit(ip[0]);
    PointAfterDigits(ip, fp);
    assert s[..|ip|] == ip;
    assert s[|ip| + 1..] == fp;
    assert ParseUnsigned(s) == FixedPoint(ip, fp);
  }

  lemma PointAfterDigits(ip: string, fp: string)
    requires AllDigits(ip)
    ensures IndexOf(ip + "." + fp, '.') == |ip|
  {
    var s := ip + "." + fp;
    assert s[|ip|] == '.';
    forall j | 0 <= j < |ip| ensures s[j] != '.' { assert s[j] == ip[j]; assert IsDigit(ip[j]); }
    IndexOfFirst(s, '.', |ip|);
  }

  lemma {:induction false} IndexOfFirst(s: string, c: char, k: nat)
    requires k < |s| && s[k] == c
    requires forall j :: 0 <= j < k ==> s[j] != c
    ensures IndexOf(s, c) == k
    decreases k
  {
    if k > 0 {
      IndexOfFirst(s[1..], c, k - 1);
    }
  }

  /** Whatever `float` accepts consists of digits, at most one point and a leading sign. */
  lemma ParseDecimalAlphabet(s: string)
    requires ParseDecimal(s).Some?
    ensures |s| > 0
    ensures forall j :: 0 < j < |s| ==> IsDigit(s[j]) || s[j] == '.'
    ensures IsDigit(s[0]) || s[0] in {'.', '-', '+'}
  {
    var t := if s[0] == '-' || s[0] == '+' then s[1..] else s;
    var i := IndexOf(t, '.');
    assert FixedPoint(t[..i], if i < |t| then t[i + 1..] else "").Some?;
    assert AllDigits(t[..i]);
    if i < |t| { assert AllDigits(t[i + 1..]); }
    forall j | 0 <= j < |t| ensures IsDigit(t[j]) || t[j] == '.' {
      if j < i { assert t[j] == t[..i][j]; }
      else if j > i { assert t[j] == t[i + 1..][j - i - 1]; }
    }
    if s[0] == '-' || s[0] == '+' {
      forall j | 0 < j < |s| ensures IsDigit(s[j]) || s[j] == '.' { assert s[j] == t[j - 1]; }
    }
  }

  // ---------------------------------------------------------------------------
  // `float(s)` on text with surrounding whitespace

  /** `s.lstrip()`. */
  function TrimStart(s: string): (r: string)
    ensures |r| <= |s| && r == s[|s| - |r|..]
    ensures |r| > 0 ==> !IsSpace(r[0])
    ensures forall j :: 0 <= j < |s| - |r| ==> IsSpace(s[j])
    decreases |s|
  {
    if |s| > 0 && IsSpace(s[0]) then TrimStart(s[1..]) else s
  }

  /** `s.rstrip()`. */
  function TrimEnd(s: string): (r: string)
    ensures |r| <= |s| && r == s[..|r|]
    ensures |r| > 0 ==> !IsSpace(r[|r| - 1])
    ensures forall j :: |r| <= j < |s| ==> IsSpace(s[j])
    decreases |s|
  {
    if |s| > 0 && IsSpace(s[|s| - 1]) then TrimEnd(s[..|s| - 1]) else s
  }

  /** `s.strip()`. */
  function Strip(s: string): string
  {
    TrimEnd(TrimStart(s))
  }

  /** Text without whitespace at either end is left as it is. */
  lemma StripTrimmed(s: string)
    requires |s| > 0 && !IsSpace(s[0]) && !IsSpace(s[|s| - 1])
    ensures Strip(s) == s
  {
  }

  /** `float(s)`: Python strips surrounding whitespace before reading the number. */
  function ParseFloat(s: string): Option<real>
  {
    ParseDecimal(Strip(s))
  }

  /** Padding with blanks does not change what `float` reads. */
  lemma ParseFloatPadded(s: string, pre: string, post: string)
    requires |s| > 0 && !IsSpace(s[0]) && !IsSpace(s[|s| - 1])
    requires forall j :: 0 <= j < |pre| ==> IsSpace(pre[j])
    requires forall j :: 0 <= j < |post| ==> IsSpace(post[j])
    ensures ParseFloat(pre + s + post) == ParseDecimal(s)
  {
    TrimStartPadded(pre, s + post);
    assert pre + s + post == pre + (s + post);
    TrimEndPadded(s, post);
  }

  lemma {:induction false} TrimStartPadded(pre: string, rest: string)
    requires forall j :: 0 <= j < |pre| ==> IsSpace(pre[j])
    requires |rest| > 0 && !IsSpace(rest[0])
    ensures TrimStart(pre + rest) == rest
    decreases |pre|
  {
    if |pre| > 0 {
      assert (pre + rest)[1..] == pre[1..] + rest;
      TrimStartPadded(pre[1..], rest);
    } else {
      assert pre + rest == rest;
    }
  }

  lemma {:induction false} TrimEndPadded(body: string, post: string)
    requires forall j :: 0 <= j < |post| ==> IsSpace(post[j])
    requires |body| > 0 && !IsSpace(body[|body| - 1])
    ensures TrimEnd(body + post) == body
    decreases |post|
  {
    if |post| > 0 {
      var p := post[..|post| - 1];
      assert (body + post)[..|body + post| - 1] == body + p;
      TrimEndPadded(body, p);
    } else {
      assert body + post == body;
    }
  }

  /** `float` of an integer's text, blanks or not, is that integer. */
  lemma ParseFloatInt(i: int)
    ensures ParseFloat(IntToString(i)) == Some(i as real)
  {
    var t := IntToString(i);
    ParseDecimalInt(i);
    IntToStringEnds(i);
    StripTrimmed(t);
  }

  lemma IntToStringEnds(i: int)
    ensures var t := IntToString(i); !IsSpace(t[0]) && !IsSpace(t[|t| - 1])
  {
    var n: nat := if i < 0 then -i else i;
    var d := NatToString(n);
    assert IsDigit(d[0]) && IsDigit(d[|d| - 1]);
    if i < 0 {
      assert IntToString(i) == "-" + d;
      assert (("-" + d))[|"-" + d| - 1] == d[|d| - 1];
    }
  }
}
