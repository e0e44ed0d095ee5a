/**
 * `ConfigValidator` (src/generator/src/config_validator.py): the field
 * parsers, `__parse_config` and the `read_config` line loop. The file is
 * given as the lines `readline` returns, in order; the loop stops at the
 * first empty string, which is how `readline` signals the end of the file.
 */
module ConfigValidator {
  import opened Wrappers
  import opened PyInt
  import opened PyStr

  /** The values a configuration key can hold (`Config_Value`, plus the `None` defaults). */
  datatype ConfigValue = IntValue(n: int) | PairValue(x: int, y: int) | TextValue(text: string) | BoolValue(b: bool) | NoneValue

  /**
   * Why reading stops: `ConfigError` (Malformed), the `ValueError` raised for
   * a key that is not a member (UnknownKey), and the `UnboundLocalError` of a
   * member key that no `case` handles (Unbound).
   */
  datatype ConfigFailure = Malformed | UnknownKey | Unbound

  /** The configuration keys, in the order `AvailableKeys` declares them. */
  const ConfigKeys: seq<string> :=
    ["WIDTH", "HEIGHT", "ENTRY", "EXIT", "OUTPUT_FILE", "PERFECT", "SEED", "FT_LOGO", "FT_LOGO_SCALE", "PATH_FINDER"]

  /** Every member name of `AvailableKeys`: the keys and the `DEFAULT_VALUES` table itself. */
  const MemberNames: seq<string> := ConfigKeys + ["DEFAULT_VALUES"]

  /** `AvailableKeys.DEFAULT_VALUES`. */
  const Defaults: map<string, ConfigValue> := map[
    "WIDTH" := IntValue(0), "HEIGHT" := IntValue(0),
    "ENTRY" := PairValue(0, 0), "EXIT" := PairValue(0, 0),
    "OUTPUT_FILE" := NoneValue,
    "PERFECT" := NoneValue, "SEED" := NoneValue,
    "FT_LOGO" := BoolValue(true), "PATH_FINDER" := BoolValue(false),
    "FT_LOGO_SCALE" := BoolValue(false)]

  predicate IntKey(key: string)
  {
    key == "WIDTH" || key == "HEIGHT" || key == "SEED"
  }

  predicate PairKey(key: string)
  {
    key == "ENTRY" || key == "EXIT"
  }

  predicate BoolKey(key: string)
  {
    key == "PERFECT" || key == "FT_LOGO" || key == "FT_LOGO_SCALE" || key == "PATH_FINDER"
  }

  /** The default table has exactly one entry per configuration key. */
  lemma DefaultsCoverKeys()
    ensures forall key :: key in Defaults <==> key in ConfigKeys
  {
    forall key
      ensures key in Defaults <==> key in ConfigKeys
    {
      assert key in ConfigKeys <==> (key == "WIDTH" || key == "HEIGHT" || key == "ENTRY" || key == "EXIT" || key == "OUTPUT_FILE"
        || key == "PERFECT" || key == "SEED" || key == "FT_LOGO" || key == "FT_LOGO_SCALE" || key == "PATH_FINDER");
    }
  }

  /** Each key is an integer, a coordinate, a file name or a flag, and only `DEFAULT_VALUES` is a member name that is not a key. */
  lemma KeyKinds(key: string)
    ensures key in ConfigKeys <==> IntKey(key) || PairKey(key) || key == "OUTPUT_FILE" || BoolKey(key)
    ensures key in MemberNames <==> key in ConfigKeys || key == "DEFAULT_VALUES"
    ensures key in MemberNames ==> |key| > 0 && key[0] != '#' && key[0] != ' ' && '=' !in key
  {
  }

  /** `__parse_width`, `__parse_height`, `__parse_seed`: `int(value)`, None where that raises. */
  function ParseNumber(value: string): Option<int>
  {
    ParseInt(value)
  }

  /**
   * `__parse_entry` / `__parse_exit`: exactly two comma-separated parts, each
   * an integer.
   */
  function ParseCoord(value: string): (r: Option<(int, int)>)
    ensures r.Some? ==> Count(value, ',') == 1
    ensures r.Some? ==> var parts := Split(value, ','); ParseInt(parts[0]) == Some(r.value.0) && ParseInt(parts[1]) == Some(r.value.1)
  {
    var parts := Split(value, ',');
    if |parts| != 2 then None
    else match (ParseInt(parts[0]), ParseInt(parts[1]))
      case (Some(x), Some(y)) => Some((x, y))
      case _ => None
  }

  /** The text `str(x) + "," + str(y)` of a coordinate. */
  function CoordText(x: int, y: int): string
  {
    IntToString(x) + [','] + IntToString(y)
  }

  /** The written form of an integer holds no comma, space, '=' or newline. */
  lemma IntTextPlain(n: int)
    ensures |IntToString(n)| > 0
    ensures ',' !in IntToString(n) && Plain(IntToString(n))
    ensures '#' != IntToString(n)[0] && IntToString(n)[|IntToString(n)| - 1] != '\n'
  {
    var digits := if n < 0 then NatToString(-n) else NatToString(n);
    assert forall c :: c in digits ==> IsDigit(c);
  }

  /** A coordinate written as "x,y" reads back as itself. */
  lemma CoordRoundTrip(x: int, y: int)
    ensures ParseCoord(CoordText(x, y)) == Some((x, y))
  {
    IntTextPlain(x);
    IntTextPlain(y);
    SplitTwo(IntToString(x), IntToString(y), ',');
    ParseIntToString(x);
    ParseIntToString(y);
  }

  /** Without exactly one comma a coordinate is refused. */
  lemma CoordNeedsOneComma(value: string)
    requires Count(value, ',') != 1
    ensures ParseCoord(value) == None
  {
  }

  /**
   * `__parse_output_file`: the checks in the order the source makes them;
   * the name is kept as given when it passes them all.
   */
  function ParseOutputFile(value: string): (r: Option<string>)
    ensures r.Some? <==> EndsWith(value, ".txt") && ' ' !in value && !Contains(value, "..") && |value| != 4
    ensures r.Some? ==> r.value == value
  {
    if !EndsWith(value, ".txt") then None
    else if ' ' in value then None
    else if Contains(value, "..") then None
    else if |value| == 4 then None
    else Some(value)
  }

  /** An accepted file name has a non-empty stem before ".txt" that does not end in a dot. */
  lemma OutputFileStem(value: string)
    requires ParseOutputFile(value).Some?
    ensures |value| >= 5 && value[|value| - 4..] == ".txt"
    ensures value[|value| - 5] != '.'
  {
    assert value[|value| - 4] == '.';
    if value[|value| - 5] == '.' {
      assert value[|value| - 5..|value| - 5 + 2] == "..";
      ContainsAt(value, "..", |value| - 5);
    }
  }

  /** The four boolean parsers: exactly "True" or "False". */
  function ParseBool(value: string): (r: Option<bool>)
    ensures r.Some? <==> value == "True" || value == "False"
  {
    if value != "True" && value != "False" then None
    else if value == "True" then Some(true)
    else Some(false)
  }

  function BoolText(b: bool): string
  {
    if b then "True" else "False"
  }

  /** A flag written as "True" or "False" reads back as itself, and nothing else reads as a flag. */
  lemma BoolRoundTrip(b: bool, value: string)
    ensures ParseBool(BoolText(b)) == Some(b)
    ensures ParseBool(value) == Some(b) ==> value == BoolText(b)
  {
  }

  /** The `match key` of `__parse_config`: the parser of each configuration key, on the value without its trailing newlines. */
  function ParseValue(key: string, value: string): (r: Option<ConfigValue>)
    requires key in ConfigKeys
    ensures IntKey(key) ==> (r.Some? <==> ParseInt(value).Some?) && (r.Some? ==> r.value == IntValue(ParseInt(value).value))
    ensures PairKey(key) ==> (r.Some? <==> ParseCoord(value).Some?) && (r.Some? ==> r.value == PairValue(ParseCoord(value).value.0, ParseCoord(value).value.1))
    ensures key == "OUTPUT_FILE" ==> (r.Some? <==> ParseOutputFile(value).Some?) && (r.Some? ==> r.value == TextValue(value))
    ensures BoolKey(key) ==> (r.Some? <==> ParseBool(value).Some?) && (r.Some? ==> r.value == BoolValue(ParseBool(value).value))
  {
    KeyKinds(key);
    if IntKey(key) then
      match ParseNumber(value)
      case Some(n) => Some(IntValue(n))
      case None => None
    else if PairKey(key) then
      match ParseCoord(value)
      case Some((x, y)) => Some(PairValue(x, y))
      case None => None
    else if key == "OUTPUT_FILE" then
      match ParseOutputFile(value)
      case Some(name) => Some(TextValue(name))
      case None => None
    else
      match ParseBool(value)
      case Some(b) => Some(BoolValue(b))
      case None => None
  }

  /**
   * `__parse_config` as written: a key must be a member name, a value must
   * hold no space (checked before the newline is stripped), and the
   * `DEFAULT_VALUES` member passes the first check but matches no `case`.
   */
  function ParseConfigAsWritten(key: string, value: string): Result<(string, ConfigValue), ConfigFailure>
  {
    if key !in MemberNames then Failure(UnknownKey)
    else if ' ' in value then Failure(Malformed)
    else if key !in ConfigKeys then Failure(Unbound)
    else match ParseValue(key, RStrip(value, '\n'))
      case Some(v) => Success((key, v))
      case None => Failure(Malformed)
  }

  /** `__parse_config` with the key check it evidently intends: only configuration keys are available. */
  function ParseConfig(key: string, value: string): (r: Result<(string, ConfigValue), ConfigFailure>)
    ensures r.Success? ==> r.value.0 == key && key in ConfigKeys && ' ' !in value
    ensures r.Failure? && r.error == UnknownKey <==> key !in ConfigKeys
  {
    if key !in ConfigKeys then Failure(UnknownKey)
    else if ' ' in value then Failure(Malformed)
    else match ParseValue(key, RStrip(value, '\n'))
      case Some(v) => Success((key, v))
      case None => Failure(Malformed)
  }

  /** The two differ only on the `DEFAULT_VALUES` key. */
  lemma ParseConfigAgrees(key: string, value: string)
    requires key != "DEFAULT_VALUES"
    ensures ParseConfigAsWritten(key, value) == ParseConfig(key, value)
  {
    KeyKinds(key);
  }

  /** The line "DEFAULT_VALUES=0" ends in UnboundLocalError as written instead of the "not available" ValueError. */
  lemma DefaultValuesKeyUnbound()
    ensures ParseConfigAsWritten("DEFAULT_VALUES", "0\n") == Failure(Unbound)
    ensures ParseConfig("DEFAULT_VALUES", "0\n") == Failure(UnknownKey)
  {
    assert "DEFAULT_VALUES" in MemberNames by {
      assert MemberNames[10] == "DEFAULT_VALUES";
    }
    KeyKinds("DEFAULT_VALUES");
  }

  /** A value with a space is refused even where the parser alone would accept it once stripped. */
  lemma SpaceCheckedFirst()
    ensures ParseConfig("WIDTH", "1 \n") == Failure(Malformed)
    ensures ParseInt(RStrip("1 \n", '\n')) == Some(1)
  {
    assert "1 \n"[1] == ' ';
    assert ParseInt(RStrip("1 \n", '\n')) == Some(1) by {
      RStripOne("1 ", '\n');
      assert "1 " + ['\n'] == "1 \n";
      ParseIntSpaces("1", ' ');
      ParseIntToString(1);
      assert IntToString(1) == "1";
      assert "1" + [' '] == "1 ";
    }
  }

  /** How `read_config` treats one line. */
  datatype LineKind = Comment | Blank | Assignment(key: string, value: string) | BadShape

  /**
   * The checks `read_config` makes on a line, in order: a comment once the
   * spaces are stripped, a line of spaces, a line without '=', a line that
   * does not split into exactly two parts or whose value is a bare newline.
   */
  function Classify(line: string): (k: LineKind)
    ensures k.Assignment? ==> line == k.key + ['='] + k.value && '=' !in k.key && '=' !in k.value && k.value != "\n"
  {
    var trimmed := StripChars(line, ' ');
    if StartsWith(trimmed, "#") then Comment
    else if trimmed == "\n" then Blank
    else if '=' !in line then BadShape
    else
      var parts := Split(line, '=');
      if |parts| != 2 || parts[1] == "\n" then BadShape
      else
        JoinSplit(line, '=');
        assert Join(parts, '=') == parts[0] + ['='] + parts[1] by {
          assert parts[1..] == [parts[1]];
        }
        Assignment(parts[0], parts[1])
  }

  /** What one line does to the configuration `cfg`: leaves it, stores one value, or stops reading. */
  function ReadLine(cfg: map<string, ConfigValue>, line: string): Result<map<string, ConfigValue>, ConfigFailure>
  {
    match Classify(line)
    case Comment => Success(cfg)
    case Blank => Success(cfg)
    case BadShape => Failure(Malformed)
    case Assignment(key, value) =>
      match ParseConfig(key, value)
      case Success((k, v)) => Success(cfg[k := v])
      case Failure(e) => Failure(e)
  }

  /** The configuration left by reading `lines` after `cfg`, or why reading stopped. */
  function ReadLines(cfg: map<string, ConfigValue>, lines: seq<string>): Result<map<string, ConfigValue>, ConfigFailure>
    decreases |lines|
  {
    if lines == [] || lines[0] == "" then Success(cfg)
    else match ReadLine(cfg, lines[0])
      case Success(next) => ReadLines(next, lines[1..])
      case Failure(e) => Failure(e)
  }

  /** One line as `read_config` treats it with `__parse_config` as written. */
  function ReadLineAsWritten(cfg: map<string, ConfigValue>, line: string): Result<map<string, ConfigValue>, ConfigFailure>
  {
    match Classify(line)
    case Comment => Success(cfg)
    case Blank => Success(cfg)
    case BadShape => Failure(Malformed)
    case Assignment(key, value) =>
      match ParseConfigAsWritten(key, value)
      case Success((k, v)) => Success(cfg[k := v])
      case Failure(e) => Failure(e)
  }

  /** The lines as `read_config` reads them with `__parse_config` as written. */
  function ReadLinesAsWritten(cfg: map<string, ConfigValue>, lines: seq<string>): Result<map<string, ConfigValue>, ConfigFailure>
    decreases |lines|
  {
    if lines == [] || lines[0] == "" then Success(cfg)
    else match ReadLineAsWritten(cfg, lines[0])
      case Success(next) => ReadLinesAsWritten(next, lines[1..])
      case Failure(e) => Failure(e)
  }

  /** No line of the file assigns the `DEFAULT_VALUES` member. */
  predicate NoDefaultValuesLine(lines: seq<string>)
  {
    forall i :: 0 <= i < |lines| ==> !(Classify(lines[i]).Assignment? && Classify(lines[i]).key == "DEFAULT_VALUES")
  }

  /**
   * Reading as written and reading with the corrected key check give the
   * same configuration, or stop with the same error, on every file without
   * a `DEFAULT_VALUES=` line.
   */
  lemma {:induction false} ReadLinesAsWrittenAgrees(cfg: map<string, ConfigValue>, lines: seq<string>)
    requires NoDefaultValuesLine(lines)
    ensures ReadLinesAsWritten(cfg, lines) == ReadLines(cfg, lines)
    decreases |lines|
  {
    if lines != [] && lines[0] != "" {
      var k := Classify(lines[0]);
      if k.Assignment? {
        assert k.key != "DEFAULT_VALUES";
        ParseConfigAgrees(k.key, k.value);
      }
      assert ReadLineAsWritten(cfg, lines[0]) == ReadLine(cfg, lines[0]);
      if ReadLine(cfg, lines[0]).Success? {
        assert NoDefaultValuesLine(lines[1..]) by {
          forall i | 0 <= i < |lines[1..]|
            ensures !(Classify(lines[1..][i]).Assignment? && Classify(lines[1..][i]).key == "DEFAULT_VALUES")
          {
            assert lines[1..][i] == lines[i + 1];
          }
        }
        ReadLinesAsWrittenAgrees(ReadLine(cfg, lines[0]).value, lines[1..]);
      }
    }
  }

  /**
   * A file whose first line assigns a plain value to `DEFAULT_VALUES` stops
   * reading with UnboundLocalError as written, and with the "not available"
   * error once corrected.
   */
  lemma ReadDefaultValuesLine(cfg: map<string, ConfigValue>, text: string, rest: seq<string>)
    requires |text| > 0 && Plain(text)
    ensures ReadLinesAsWritten(cfg, ["DEFAULT_VALUES" + ['='] + (text + ['\n'])] + rest) == Failure(Unbound)
    ensures ReadLines(cfg, ["DEFAULT_VALUES" + ['='] + (text + ['\n'])] + rest) == Failure(UnknownKey)
  {
    var key := "DEFAULT_VALUES";
    var line := key + ['='] + (text + ['\n']);
    var lines := [line] + rest;
    assert '=' !in key by {
      assert forall i :: 0 <= i < |key| ==> key[i] != '=';
    }
    ClassifyWrittenLine(key, text);
    assert key in MemberNames by {
      assert MemberNames[10] == key;
    }
    KeyKinds(key);
    assert ' ' !in text + ['\n'];
    assert ParseConfigAsWritten(key, text + ['\n']) == Failure(Unbound);
    assert lines[0] == line && line != "";
  }

  /** The first loop of `read_config`: every key up to `DEFAULT_VALUES` gets its default. */
  method FillDefaults() returns (available: map<string, ConfigValue>)
    ensures available == Defaults
  {
    DefaultsCoverKeys();
    available := map[];
    for k := 0 to |ConfigKeys|
      invariant forall key :: key in available <==> key in ConfigKeys[..k]
      invariant forall key :: key in available ==> key in Defaults && available[key] == Defaults[key]
    {
      assert ConfigKeys[..k + 1] == ConfigKeys[..k] + [ConfigKeys[k]];
      available := available[ConfigKeys[k] := Defaults[ConfigKeys[k]]];
    }
    assert ConfigKeys[..|ConfigKeys|] == ConfigKeys;
    assert available.Keys == Defaults.Keys;
  }

  /** Reading a line that is not the end of the file is that line's effect followed by the rest. */
  lemma ReadLinesStep(cfg: map<string, ConfigValue>, lines: seq<string>)
    requires lines != [] && lines[0] != ""
    ensures ReadLine(cfg, lines[0]).Failure? ==> ReadLines(cfg, lines) == Failure(ReadLine(cfg, lines[0]).error)
    ensures ReadLine(cfg, lines[0]).Success? ==> ReadLines(cfg, lines) == ReadLines(ReadLine(cfg, lines[0]).value, lines[1..])
  {
  }

  /**
   * `read_config` on the lines of the file: every key starts at its default,
   * then each line is skipped, refused or stored over the key's value. Lines
   * are parsed with the corrected key check; `ReadLinesAsWrittenAgrees`
   * shows this is the code as written on every file without a
   * `DEFAULT_VALUES=` line.
   */
  method ReadConfig(lines: seq<string>) returns (r: Result<map<string, ConfigValue>, ConfigFailure>)
    ensures r == ReadLines(Defaults, lines)
  {
    var available := FillDefaults();
    var i := 0;
    while i < |lines| && lines[i] != ""
      invariant 0 <= i <= |lines|
      invariant ReadLines(available, lines[i..]) == ReadLines(Defaults, lines)
    {
      ReadLinesStep(available, lines[i..]);
      assert lines[i..][0] == lines[i] && lines[i..][1..] == lines[i + 1..];
      ghost var step := ReadLine(available, lines[i]);
      match Classify(lines[i]) {
        case Comment =>
          assert step == Success(available);
        case Blank =>
          assert step == Success(available);
        case BadShape =>
          assert step == Failure(Malformed);
          return Failure(Malformed);
        case Assignment(key, value) =>
          var result := ParseConfig(key, value);
          if result.Failure? {
            assert step == Failure(result.error);
            return Failure(result.error);
          }
          available := available[result.value.0 := result.value.1];
          assert step == Success(available);
      }
      i := i + 1;
    }
    assert lines[i..] == [] || lines[i..][0] == "";
    return Success(available);
  }

  /** Comment lines and lines of spaces change nothing: a file of only those leaves the configuration as it was. */
  lemma {:induction false} ReadSkipsCommentsAndBlanks(cfg: map<string, ConfigValue>, lines: seq<string>)
    requires forall k :: 0 <= k < |lines| ==> Classify(lines[k]).Comment? || Classify(lines[k]).Blank?
    ensures ReadLines(cfg, lines) == Success(cfg)
  {
    if lines != [] && lines[0] != "" {
      ReadSkipsCommentsAndBlanks(cfg, lines[1..]);
    }
  }

  /** A line that is neither a comment nor blank, and has no '=', several '=' or a bare newline after '=', stops reading with ConfigError. */
  lemma ReadRefusesShape(cfg: map<string, ConfigValue>, line: string, rest: seq<string>)
    requires line != "" && !StartsWith(StripChars(line, ' '), "#") && StripChars(line, ' ') != "\n"
    requires Count(line, '=') != 1 || Split(line, '=')[1] == "\n"
    ensures ReadLines(cfg, [line] + rest) == Failure(Malformed)
  {
    CountIn(line, '=');
  }

  /** One line keeps exactly the configuration keys. */
  lemma LineKeepsKeys(cfg: map<string, ConfigValue>, line: string)
    requires forall key :: key in cfg <==> key in ConfigKeys
    ensures ReadLine(cfg, line).Success? ==> forall key :: key in ReadLine(cfg, line).value <==> key in ConfigKeys
  {
  }

  /** Reading keeps exactly the configuration keys: none is added, none is lost. */
  lemma {:induction false} ReadKeepsKeys(cfg: map<string, ConfigValue>, lines: seq<string>)
    requires forall key :: key in cfg <==> key in ConfigKeys
    ensures ReadLines(cfg, lines).Success? ==> forall key :: key in ReadLines(cfg, lines).value <==> key in ConfigKeys
    decreases |lines|
  {
    if lines != [] && lines[0] != "" {
      LineKeepsKeys(cfg, lines[0]);
      var step := ReadLine(cfg, lines[0]);
      if step.Success? {
        ReadKeepsKeys(step.value, lines[1..]);
      }
    }
  }

  /** An assignment line whose value parses stores it over the key. */
  lemma ReadLineAssignment(cfg: map<string, ConfigValue>, line: string, key: string, v: ConfigValue)
    requires Classify(line).Assignment? && ParseConfig(Classify(line).key, Classify(line).value) == Success((key, v))
    ensures ReadLine(cfg, line) == Success(cfg[key := v])
  {
  }

  /** Reading one more line after a file that was read to its end applies that line to the result. */
  lemma {:induction false} ReadLinesAppend(cfg: map<string, ConfigValue>, lines: seq<string>, line: string)
    requires "" !in lines && line != ""
    requires ReadLines(cfg, lines).Success?
    ensures ReadLines(cfg, lines + [line]) == ReadLine(ReadLines(cfg, lines).value, line)
    decreases |lines|
  {
    if lines == [] {
      assert [] + [line] == [line];
      ReadLinesStep(cfg, [line]);
      assert [line][1..] == [];
    } else {
      var all := lines + [line];
      assert all[0] == lines[0] && all[1..] == lines[1..] + [line];
      assert lines[0] in lines;
      ReadLinesStep(cfg, lines);
      ReadLinesStep(cfg, all);
      var step := ReadLine(cfg, lines[0]);
      ReadLinesAppend(step.value, lines[1..], line);
    }
  }

  /** A later line for a key overwrites what earlier lines stored. */
  lemma ReadLaterLineWins(cfg: map<string, ConfigValue>, lines: seq<string>, line: string, key: string, v: ConfigValue)
    requires "" !in lines && line != ""
    requires ReadLines(cfg, lines).Success?
    requires Classify(line).Assignment? && ParseConfig(Classify(line).key, Classify(line).value) == Success((key, v))
    ensures ReadLines(cfg, lines + [line]) == Success(ReadLines(cfg, lines).value[key := v])
  {
    ReadLinesAppend(cfg, lines, line);
    ReadLineAssignment(ReadLines(cfg, lines).value, line, key, v);
  }

  /** Whether `v` is a value the configuration file can state for `key`. */
  predicate Writable(key: string, v: ConfigValue)
  {
    match v
    case IntValue(_) => IntKey(key)
    case PairValue(_, _) => PairKey(key)
    case TextValue(t) => key == "OUTPUT_FILE" && ParseOutputFile(t).Some? && '=' !in t && '\n' !in t
    case BoolValue(_) => BoolKey(key)
    case NoneValue => false
  }

  /** How a value is written after `KEY=`. */
  function ValueText(v: ConfigValue): string
  {
    match v
    case IntValue(n) => IntToString(n)
    case PairValue(x, y) => CoordText(x, y)
    case TextValue(t) => t
    case BoolValue(b) => BoolText(b)
    case NoneValue => "None"
  }

  /** The line `KEY=value` with its newline. */
  function ConfigLine(key: string, v: ConfigValue): string
  {
    key + ['='] + (ValueText(v) + ['\n'])
  }

  /** Text a line can carry after '=': no space, no '=' and no newline. */
  predicate Plain(s: string)
  {
    ' ' !in s && '=' !in s && '\n' !in s
  }

  /** Two plain texts around a comma make a plain text. */
  lemma PlainAround(a: string, b: string)
    requires Plain(a) && Plain(b)
    ensures Plain(a + [','] + b)
  {
    var s := a + [','] + b;
    forall c | c in s
      ensures c != ' ' && c != '=' && c != '\n'
    {
      var k :| 0 <= k < |s| && s[k] == c;
      if k < |a| {
        assert s[k] == a[k];
      } else if k > |a| {
        assert s[k] == b[k - |a| - 1];
      }
    }
  }

  /** The written form of a writable value: no space, '=' or newline, and a parser that reads it back. */
  lemma ValueTextReads(key: string, v: ConfigValue)
    requires Writable(key, v)
    ensures |ValueText(v)| > 0 && ValueText(v)[|ValueText(v)| - 1] != '\n'
    ensures Plain(ValueText(v))
    ensures key in ConfigKeys && ParseValue(key, ValueText(v)) == Some(v)
  {
    KeyKinds(key);
    match v
    case IntValue(n) =>
      IntTextPlain(n);
      ParseIntToString(n);
    case PairValue(x, y) =>
      IntTextPlain(x);
      IntTextPlain(y);
      PlainAround(IntToString(x), IntToString(y));
      CoordRoundTrip(x, y);
    case TextValue(t) =>
      OutputFileStem(t);
      assert t[|t| - 1] == ".txt"[3];
    case BoolValue(b) =>
      assert Plain(BoolText(b)) && |BoolText(b)| > 0 by {
        assert Plain("True") by {
          assert "True" == ['T', 'r', 'u', 'e'];
        }
        assert Plain("False") by {
          assert "False" == ['F', 'a', 'l', 's', 'e'];
        }
      }
      BoolRoundTrip(b, BoolText(b));
  }

  /** A line `key=text` with its newline is an assignment of `text` and the newline to `key`. */
  lemma ClassifyWrittenLine(key: string, text: string)
    requires |key| > 0 && key[0] != '#' && key[0] != ' ' && '=' !in key
    requires |text| > 0 && Plain(text)
    ensures Classify(key + ['='] + (text + ['\n'])) == Assignment(key, text + ['\n'])
  {
    var line := key + ['='] + (text + ['\n']);
    assert line[0] == key[0];
    assert line[|line| - 1] == '\n';
    StripCharsNone(line, ' ');
    assert !StartsWith(line, "#");
    assert '=' in line by {
      assert line[|key|] == '=';
    }
    SplitTwo(key, text + ['\n'], '=');
    assert text + ['\n'] != "\n";
  }

  /** The value text of a writable value, with its newline, is parsed back to the value. */
  lemma ParseWrittenValue(key: string, v: ConfigValue)
    requires Writable(key, v)
    ensures ParseConfig(key, ValueText(v) + ['\n']) == Success((key, v))
  {
    var text := ValueText(v);
    ValueTextReads(key, v);
    assert ' ' !in text + ['\n'];
    RStripOne(text, '\n');
  }

  /** A line written as `KEY=value` stores exactly that value. */
  lemma ReadWrittenLine(cfg: map<string, ConfigValue>, key: string, v: ConfigValue, rest: seq<string>)
    requires Writable(key, v)
    ensures ReadLines(cfg, [ConfigLine(key, v)] + rest) == ReadLines(cfg[key := v], rest)
  {
    var line := ConfigLine(key, v);
    ValueTextReads(key, v);
    KeyKinds(key);
    ClassifyWrittenLine(key, ValueText(v));
    ParseWrittenValue(key, v);
    assert ([line] + rest)[0] == line && ([line] + rest)[1..] == rest;
  }

  /** The lines of a file that states `entries` in order. */
  function ConfigLines(entries: seq<(string, ConfigValue)>): seq<string>
  {
    if entries == [] then [] else [ConfigLine(entries[0].0, entries[0].1)] + ConfigLines(entries[1..])
  }

  /** The configuration those entries leave, each overwriting the key's earlier value. */
  function Stated(cfg: map<string, ConfigValue>, entries: seq<(string, ConfigValue)>): map<string, ConfigValue>
    decreases |entries|
  {
    if entries == [] then cfg else Stated(cfg[entries[0].0 := entries[0].1], entries[1..])
  }

  /** A configuration file written from writable entries reads back as those entries stated over the defaults. */
  lemma {:induction false} ReadWrittenConfig(cfg: map<string, ConfigValue>, entries: seq<(string, ConfigValue)>)
    requires forall k :: 0 <= k < |entries| ==> Writable(entries[k].0, entries[k].1)
    ensures ReadLines(cfg, ConfigLines(entries)) == Success(Stated(cfg, entries))
    decreases |entries|
  {
    if entries != [] {
      ReadWrittenLine(cfg, entries[0].0, entries[0].1, ConfigLines(entries[1..]));
      ReadWrittenConfig(cfg[entries[0].0 := entries[0].1], entries[1..]);
    }
  }
}
