/**
 * The two integer/text conversions the program relies on: Python's `int(s)`
 * on a base-10 string (used by every numeric configuration value) and
 * `str(n)` / `format(n, 'X')` (used by the output file).
 *
 * `int(s)` strips surrounding whitespace, accepts one optional sign, and then
 * needs a non-empty run of decimal digits in which single underscores may
 * separate digits. Leading zeros are allowed in base 10.
 */
module PyInt {
  import opened Wrappers

  /** The whitespace `int()` strips, restricted to ASCII: space, the control codes 9-13 (tab to carriage return) and the separators 28-31. */
  predicate IsSpace(c: char)
  {
    c == ' ' || (9 <= c as int <= 13) || (28 <= c as int <= 31)
  }

  predicate IsDigit(c: char)
  {
    '0' <= c <= '9'
  }

  function DigitValue(c: char): (v: nat)
    requires IsDigit(c)
    ensures v < 10
  {
    (c as int) - ('0' as int)
  }

  function DigitChar(v: nat): (c: char)
    requires v < 10
    ensures IsDigit(c) && DigitValue(c) == v
  {
    (('0' as int) + v) as char
  }

  /** `s` without its leading whitespace. */
  function StripLeft(s: string): (r: string)
    ensures |r| <= |s|
    ensures |r| > 0 ==> !IsSpace(r[0])
  {
    if |s| > 0 && IsSpace(s[0]) then StripLeft(s[1..]) else s
  }

  /** `s` without its trailing whitespace. */
  function StripRight(s: string): (r: string)
    ensures |r| <= |s|
    ensures |r| > 0 ==> !IsSpace(r[|r| - 1])
  {
    if |s| > 0 && IsSpace(s[|s| - 1]) then StripRight(s[..|s| - 1]) else s
  }

  /** What `StripLeft` keeps is a suffix of its argument. */
  lemma {:induction false} StripLeftSuffix(s: string)
    ensures StripLeft(s) == s[|s| - |StripLeft(s)|..]
  {
    if |s| > 0 && IsSpace(s[0]) {
      StripLeftSuffix(s[1..]);
    }
  }

  /** What `StripRight` keeps is a prefix of its argument. */
  lemma {:induction false} StripRightPrefix(s: string)
    ensures StripRight(s) == s[..|StripRight(s)|]
  {
    if |s| > 0 && IsSpace(s[|s| - 1]) {
      StripRightPrefix(s[..|s| - 1]);
    }
  }

  /** `s.strip()` for the whitespace above. */
  function Strip(s: string): string
  {
    StripRight(StripLeft(s))
  }

  /**
   * A digit run as `int()` accepts it: digits, with single underscores
   * between two digits.
   */
  predicate DigitRun(s: string)
  {
    && |s| > 0 && IsDigit(s[0]) && IsDigit(s[|s| - 1])
    && (forall i :: 0 <= i < |s| ==> IsDigit(s[i]) || s[i] == '_')
    && (forall i :: 0 <= i < |s| - 1 && s[i] == '_' ==> IsDigit(s[i + 1]))
  }

  /** The value of the digits of `s`, anything else (the underscores) ignored. */
  function RunValue(s: string): nat
  {
    if |s| == 0 then 0
    else if !IsDigit(s[|s| - 1]) then RunValue(s[..|s| - 1])
    else RunValue(s[..|s| - 1]) * 10 + DigitValue(s[|s| - 1])
  }

  /** `int(s)` in base 10: the value, or None where Python raises ValueError. */
  function ParseInt(s: string): Option<int>
  {
    ParseSigned(Strip(s))
  }

  /** `int()` on text already stripped: an optional sign, then a digit run. */
  function ParseSigned(t: string): Option<int>
  {
    if |t| > 0 && (t[0] == '+' || t[0] == '-') then
      var body := t[1..];
      if DigitRun(body) then
        var v: int := RunValue(body);
        Some(if t[0] == '-' then -v else v)
      else None
    else if DigitRun(t) then Some(RunValue(t))
    else None
  }

  /** The decimal digits of `n`, most significant first, without leading zeros. */
  function NatToString(n: nat): (s: string)
    ensures |s| > 0 && forall i :: 0 <= i < |s| ==> IsDigit(s[i])
    ensures |s| > 1 ==> s[0] != '0'
  {
    if n < 10 then [DigitChar(n)] else NatToString(n / 10) + [DigitChar(n % 10)]
  }

  /** `str(n)`: a minus sign for negative numbers, then the digits. */
  function IntToString(n: int): string
  {
    if n < 0 then "-" + NatToString(-n) else NatToString(n)
  }

  /** `str(n)` is a minus sign or digits, and ends in a digit. */
  lemma IntToStringChars(n: int)
    ensures |IntToString(n)| > 0 && IsDigit(IntToString(n)[|IntToString(n)| - 1])
    ensures forall c :: c in IntToString(n) ==> c == '-' || IsDigit(c)
  {
    var digits := if n < 0 then NatToString(-n) else NatToString(n);
    assert IntToString(n)[|IntToString(n)| - 1] == digits[|digits| - 1];
  }

  /** The digits of `n` read back give `n`. */
  lemma {:induction false} NatToStringValue(n: nat)
    ensures RunValue(NatToString(n)) == n
  {
    var s := NatToString(n);
    if n >= 10 {
      NatToStringValue(n / 10);
      assert s[..|s| - 1] == NatToString(n / 10);
    }
  }

  /** A string without whitespace at its ends is its own strip. */
  lemma StripNoSpace(s: string)
    requires |s| > 0 && !IsSpace(s[0]) && !IsSpace(s[|s| - 1])
    ensures Strip(s) == s
  {
  }

  /** `int(str(n)) == n` for every integer. */
  lemma ParseIntToString(n: int)
    ensures ParseInt(IntToString(n)) == Some(n)
  {
    if n < 0 {
      var digits := NatToString(-n);
      assert ParseInt("-" + digits) == Some(n) by {
        NatToStringValue(-n);
        ParseIntPlain("-" + digits);
        assert ("-" + digits)[1..] == digits;
      }
    } else {
      assert ParseInt(NatToString(n)) == Some(n) by {
        NatToStringValue(n);
        ParseIntPlain(NatToString(n));
      }
    }
  }

  /** Whitespace around a number does not change what `int()` reads. */
  lemma ParseIntSpaces(s: string, pad: char)
    requires IsSpace(pad)
    ensures ParseInt([pad] + s) == ParseInt(s)
    ensures ParseInt(s + [pad]) == ParseInt(s)
  {
    assert Strip([pad] + s) == Strip(s) by {
      assert ([pad] + s)[1..] == s;
    }
    assert Strip(s + [pad]) == Strip(s) by {
      StripLeftPad(s, pad);
    }
  }

  lemma StripRightPad(s: string, pad: char)
    requires IsSpace(pad)
    ensures StripRight(s + [pad]) == StripRight(s)
  {
    assert (s + [pad])[..|s|] == s;
  }

  lemma StripLeftPad(s: string, pad: char)
    requires IsSpace(pad)
    ensures StripRight(StripLeft(s + [pad])) == StripRight(StripLeft(s))
  {
    if |s| > 0 && IsSpace(s[0]) {
      assert (s + [pad])[1..] == s[1..] + [pad];
      StripLeftPad(s[1..], pad);
    } else if |s| == 0 {
      assert StripLeft([pad]) == [];
    } else {
      StripRightPad(s, pad);
    }
  }

  /** Text without whitespace at its ends is parsed as it stands. */
  lemma ParseIntPlain(t: string)
    requires |t| > 0 && !IsSpace(t[0]) && !IsSpace(t[|t| - 1])
    ensures ParseInt(t) == ParseSigned(t)
  {
    StripNoSpace(t);
  }

  /** What `int()` rejects: nothing but whitespace, a bare sign, a decimal point, a doubled or trailing underscore. */
  lemma ParseIntRejects()
    ensures ParseInt("") == None && ParseInt(" \n") == None && ParseInt("-") == None
    ensures ParseInt("1.5") == None && ParseInt("1__0") == None && ParseInt("1_") == None
  {
    assert ParseInt(" \n") == None by {
      assert " \n"[1..] == "\n";
    }
    assert ParseInt("-") == None by {
      ParseIntPlain("-");
      assert "-"[1..] == [];
    }
    assert ParseInt("1.5") == None by {
      ParseIntPlain("1.5");
      assert !IsDigit("1.5"[1]) && "1.5"[1] != '_';
    }
    assert ParseInt("1__0") == None by {
      ParseIntPlain("1__0");
      assert "1__0"[1] == '_' && !IsDigit("1__0"[2]);
    }
    assert ParseInt("1_") == None by {
      ParseIntPlain("1_");
    }
  }

  /** `int()` accepts an explicit sign. */
  lemma ParseIntSigns()
    ensures ParseInt("+7") == Some(7) && ParseInt("-13") == Some(-13)
  {
    assert ParseInt("+7") == Some(7) by {
      ParseIntPlain("+7");
      assert "+7"[1..] == "7";
    }
    assert ParseInt("-13") == Some(-13) by {
      ParseIntPlain("-13");
      assert "-13"[1..] == "13";
      assert RunValue("13") == 13 by { assert "13"[..1] == "1"; }
    }
  }

  /** `int()` accepts underscores between digits and leading zeros. */
  lemma ParseIntGrouping()
    ensures ParseInt("1_000") == Some(1000) && ParseInt("007") == Some(7)
  {
    assert ParseInt("1_000") == Some(1000) by {
      ParseIntPlain("1_000");
      assert RunValue("1_000") == 1000 by {
        assert "1_000"[..4] == "1_00" && "1_00"[..3] == "1_0" && "1_0"[..2] == "1_" && "1_"[..1] == "1";
      }
      assert DigitRun("1_000") by {
        assert "1_000"[1] == '_' && IsDigit("1_000"[2]);
      }
    }
    assert ParseInt("007") == Some(7) by {
      ParseIntPlain("007");
      assert RunValue("007") == 7 by { assert "007"[..2] == "00" && "00"[..1] == "0"; }
    }
  }

  /** `format(n, 'X')` for a value that fits one hexadecimal digit. */
  function HexDigit(n: int): (c: char)
    requires 0 <= n < 16
  {
    if n < 10 then DigitChar(n) else (('A' as int) + n - 10) as char
  }

  /** Reading a hexadecimal digit back. */
  function HexValue(c: char): Option<int>
  {
    if IsDigit(c) then Some(DigitValue(c))
    else if 'A' <= c <= 'F' then Some((c as int) - ('A' as int) + 10)
    else None
  }

  /** Each of the sixteen wall masks is written as one character that reads back as the mask. */
  lemma HexRoundTrip(n: int)
    requires 0 <= n < 16
    ensures HexValue(HexDigit(n)) == Some(n)
    ensures HexDigit(n) != ' ' && HexDigit(n) != '\n'
  {
  }
}
