/** The few Python string built-ins the resampler relies on, over `seq<char>`:
    `int(s)` on a string, `str(n)` on an integer, `s.split(sep)` with a
    one-character separator and `s.startswith(prefix)`. Only ASCII digits and
    ASCII whitespace are modelled. */
module PyText {
  import opened Results

  predicate IsDigit(c: char) {
    '0' <= c <= '9'
  }

  /** The ASCII characters `int()` strips around its argument. */
  predicate IsSpace(c: char) {
    c == ' ' || c == '\t' || c == '\n' || c == '\r' || c == '\U{0B}' || c == '\U{0C}'
  }

  predicate AllDigits(s: string) {
    forall i :: 0 <= i < |s| ==> IsDigit(s[i])
  }

  function DigitValue(c: char): nat
    requires IsDigit(c)
  {
    c as int - '0' as int
  }

  function DigitChar(d: nat): (c: char)
    requires d < 10
    ensures IsDigit(c) && DigitValue(c) == d
  {
    ('0' as int + d) as char
  }

  /** The number a string of decimal digits denotes (leading zeros allowed). */
  function DigitsValue(s: string): nat
    requires AllDigits(s)
  {
    if |s| == 0 then 0 else DigitsValue(s[..|s| - 1]) * 10 + DigitValue(s[|s| - 1])
  }

  /** Decimal digits of `n`, most significant first, without leading zeros. */
  function NatToString(n: nat): (s: string)
    ensures |s| >= 1 && AllDigits(s)
    ensures n > 0 ==> s[0] != '0'
    ensures DigitsValue(s) == n
  {
    if n < 10 then [DigitChar(n)]
    else
      var s := NatToString(n / 10) + [DigitChar(n % 10)];
      assert s[..|s| - 1] == NatToString(n / 10);
      s
  }

  /** Python's `str(n)` for an integer: a minus sign for negative numbers,
      then the decimal digits of the magnitude with no leading zero. */
  function IntToString(n: int): (s: string)
    ensures n >= 0 ==> |s| >= 1 && AllDigits(s) && DigitsValue(s) == n && (s[0] == '0' ==> n == 0)
    ensures n < 0 ==>
      |s| >= 2 && s[0] == '-' && s[1] != '0' && AllDigits(s[1..]) && DigitsValue(s[1..]) == -n
  {
    if n < 0 then
      var digits := NatToString(-n);
      assert ("-" + digits)[1..] == digits;
      "-" + digits
    else NatToString(n)
  }

  /** `s` with leading and trailing ASCII whitespace removed (`s.strip()`). */
  function Strip(s: string): (t: string)
    ensures |t| <= |s|
    ensures |t| > 0 ==> !IsSpace(t[0]) && !IsSpace(t[|t| - 1])
    ensures forall i :: 0 <= i < |s| && !IsSpace(s[i]) ==> s[i] in t
  {
    if |s| > 0 && IsSpace(s[0]) then Strip(s[1..])
    else if |s| > 0 && IsSpace(s[|s| - 1]) then Strip(s[..|s| - 1])
    else s
  }

  /** A run of digits in which single underscores may separate digits, as in
      `1_000`; no leading, trailing or doubled underscore. */
  predicate IsDigitGroup(s: string) {
    && |s| > 0
    && IsDigit(s[0])
    && IsDigit(s[|s| - 1])
    && (forall i :: 0 <= i < |s| ==> IsDigit(s[i]) || s[i] == '_')
    && (forall i :: 0 <= i < |s| - 1 ==> !(s[i] == '_' && s[i + 1] == '_'))
  }

  /** The digits of `s` with every underscore removed. */
  function DropUnderscores(s: string): (t: string)
    requires forall i :: 0 <= i < |s| ==> IsDigit(s[i]) || s[i] == '_'
    ensures AllDigits(t)
    ensures AllDigits(s) ==> t == s
  {
    if |s| == 0 then ""
    else if s[0] == '_' then DropUnderscores(s[1..])
    else [s[0]] + DropUnderscores(s[1..])
  }

  /** Python's `int(s)` for a string `s`: `None` where Python raises
      `ValueError`. Surrounding whitespace and one leading sign are accepted. */
  function ParseInt(s: string): (r: Option<int>)
    ensures r.Some? ==> forall i :: 0 <= i < |s| ==>
      IsSpace(s[i]) || IsDigit(s[i]) || s[i] == '+' || s[i] == '-' || s[i] == '_'
    ensures |s| > 0 && AllDigits(s) ==> r == Some(DigitsValue(s))
  {
    assert |s| > 0 && AllDigits(s) ==> Strip(s) == s && IsDigitGroup(s) by {
      if |s| > 0 && AllDigits(s) {
        StripNoSpace(s);
      }
    }
    var t := Strip(s);
    if |t| == 0 then None
    else
      var negative := t[0] == '-';
      var body := if t[0] == '-' || t[0] == '+' then t[1..] else t;
      if !IsDigitGroup(body) then None
      else
        var magnitude := DigitsValue(DropUnderscores(body)) as int;
        assert forall c :: c in t ==> c == t[0] || c in body by {
          assert t == [t[0]] + t[1..];
        }
        Some(if negative then -magnitude else magnitude)
  }

  lemma {:induction false} StripNoSpace(s: string)
    requires |s| > 0 && !IsSpace(s[0]) && !IsSpace(s[|s| - 1])
    ensures Strip(s) == s
  {
  }

  /** `int(str(n)) == n` for every integer. */
  lemma ParseIntRoundTrip(n: int)
    ensures ParseInt(IntToString(n)) == Some(n)
  {
    var s := IntToString(n);
    var digits := NatToString(if n < 0 then -n else n);
    assert IsDigit(digits[|digits| - 1]);
    StripNoSpace(s);
    if n < 0 {
      assert s[1..] == digits;
    }
    assert IsDigitGroup(digits);
    assert DropUnderscores(digits) == digits;
  }

  /** Python's `s.split(sep)`: the pieces between occurrences of `sep`, so
      there is always one more piece than there are separators. */
  function Split(s: string, sep: char): (parts: seq<string>)
    ensures |parts| == Occurrences(s, sep) + 1
    ensures forall i :: 0 <= i < |parts| ==> sep !in parts[i]
  {
    if |s| == 0 then [""]
    else
      var rest := Split(s[1..], sep);
      if s[0] == sep then [""] + rest
      else [[s[0]] + rest[0]] + rest[1..]
  }

  /** How many times `c` occurs in `s` (`s.count(c)`). */
  function Occurrences(s: string, c: char): nat {
    if |s| == 0 then 0 else (if s[0] == c then 1 else 0) + Occurrences(s[1..], c)
  }

  /** `sep.join(parts)` for a one-character `sep`. */
  function Join(parts: seq<string>, sep: char): string
    requires |parts| >= 1
  {
    if |parts| == 1 then parts[0] else parts[0] + [sep] + Join(parts[1..], sep)
  }

  /** Joining the pieces of a split gives back the string. */
  lemma {:induction false} JoinSplit(s: string, sep: char)
    ensures Join(Split(s, sep), sep) == s
  {
    if |s| > 0 {
      JoinSplit(s[1..], sep);
      var rest := Split(s[1..], sep);
      if s[0] != sep {
        if |rest| == 1 {
        } else {
          assert ([s[0]] + rest[0]) + [sep] + Join(rest[1..], sep)
              == [s[0]] + (rest[0] + [sep] + Join(rest[1..], sep));
        }
      }
    }
  }

  /** Splitting a join of separator-free pieces gives back the pieces. */
  lemma {:induction false} SplitJoin(parts: seq<string>, sep: char)
    requires |parts| >= 1
    requires forall i :: 0 <= i < |parts| ==> sep !in parts[i]
    ensures Split(Join(parts, sep), sep) == parts
  {
    if |parts| == 1 {
      SplitPlain(parts[0], sep);
    } else {
      SplitJoin(parts[1..], sep);
      SplitPrefix(parts[0], Join(parts[1..], sep), sep);
      assert parts == [parts[0]] + parts[1..];
    }
  }

  /** A string without the separator splits into itself. */
  lemma {:induction false} SplitPlain(s: string, sep: char)
    requires sep !in s
    ensures Split(s, sep) == [s]
  {
    if |s| > 0 {
      SplitPlain(s[1..], sep);
      assert [s[0]] + s[1..] == s;
    }
  }

  /** A separator-free prefix followed by the separator becomes the first piece. */
  lemma {:induction false} SplitPrefix(a: string, b: string, sep: char)
    requires sep !in a
    ensures Split(a + [sep] + b, sep) == [a] + Split(b, sep)
  {
    var s := a + [sep] + b;
    if |a| == 0 {
      assert s[1..] == b;
    } else {
      assert s[1..] == a[1..] + [sep] + b;
      SplitPrefix(a[1..], b, sep);
      assert [a[0]] + a[1..] == a;
    }
  }

  /** Python's `s.startswith(prefix)`. */
  predicate StartsWith(s: string, prefix: string) {
    |prefix| <= |s| && s[..|prefix|] == prefix
  }

  /** `int()` accepts surrounding whitespace and a sign. */
  lemma ParseIntSignedPadded()
    ensures ParseInt(" -7\n") == Some(-7)
  {
    var s := " -7\n";
    assert s[1..][..2] == "-7";
    assert Strip(s) == Strip(s[1..]);
    assert Strip(s[1..]) == Strip(s[1..][..2]);
    assert Strip("-7") == "-7";
    assert "-7"[1..] == "7";
    assert IsDigitGroup("7");
    assert DropUnderscores("7") == "7";
    assert DigitsValue("7") == 7;
  }

  lemma DropUnderscoresExample()
    ensures DropUnderscores("1_080") == "1080"
  {
    assert AllDigits("080");
    assert "_080"[1..] == "080" && DropUnderscores("_080") == "080";
    assert "1_080"[1..] == "_080" && "1_080"[0] == '1';
    assert ['1'] + "080" == "1080";
  }

  lemma DigitsValueExample()
    ensures DigitsValue("1080") == 1080
  {
    assert "10"[..1] == "1" && DigitsValue("1") == 1;
    assert "108"[..2] == "10" && DigitsValue("10") == 10;
    assert "1080"[..3] == "108" && DigitsValue("108") == 108;
  }

  /** Single underscores between digits are accepted and ignored. */
  lemma ParseIntUnderscore()
    ensures ParseInt("1_080") == Some(1080)
  {
    var s := "1_080";
    StripNoSpace(s);
    assert IsDigitGroup(s);
    DropUnderscoresExample();
    DigitsValueExample();
  }

  /** A doubled underscore, a unit suffix or nothing at all is rejected. */
  lemma ParseIntRejects()
    ensures ParseInt("1__0") == None
    ensures ParseInt("12px") == None
    ensures ParseInt("") == None
  {
    assert Strip("1__0") == "1__0";
    assert !IsDigitGroup("1__0") by {
      var g := "1__0";
      assert g[1] == '_' && g[2] == '_';
    }
    assert Strip("12px") == "12px";
    assert !IsDigitGroup("12px");
  }
}
