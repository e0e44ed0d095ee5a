/**
 * The earlier configuration reader, src/generator/src/config_checker.py:
 * `AvailableKeys.convert_input` and the line loop of its `__main__` block,
 * over the lines `readline` returns (the loop stops at the first empty
 * string). Only WIDTH and HEIGHT have a `case` that binds a result; the
 * other keys end in UnboundLocalError, which the model keeps.
 */
module ConfigChecker {
  import opened Wrappers
  import opened PyInt
  import opened PyStr

  /** The values of `AvailableKeys`, in declaration order. */
  const CheckerKeys: seq<string> := ["WIDTH", "HEIGHT", "ENTRY", "EXIT", "OUTPUT_FILE", "PERFECT"]

  /** `ValueError` (BadValue), and the `UnboundLocalError` of a key whose `case` binds nothing (Unbound). */
  datatype CheckFailure = BadValue | Unbound

  predicate SizeKey(key: string)
  {
    key == "WIDTH" || key == "HEIGHT"
  }

  /**
   * `convert_input`: the key must be one of the values, WIDTH and HEIGHT take
   * `int` of the value without its trailing newlines, and every other key
   * reaches `return (key, result)` with `result` unbound. The key test is
   * `in` on the Enum class as Python 3.12 and later answer it: by the
   * members' values.
   */
  function ConvertInput(key: string, value: string): (r: Result<(string, int), CheckFailure>)
    ensures r.Success? <==> SizeKey(key) && ParseInt(RStrip(value, '\n')).Some?
    ensures r.Success? ==> r.value == (key, ParseInt(RStrip(value, '\n')).value)
    ensures r == Failure(Unbound) <==> key in CheckerKeys && !SizeKey(key)
  {
    if key !in CheckerKeys then Failure(BadValue)
    else if key == "WIDTH" || key == "HEIGHT" then
      match ParseInt(RStrip(value, '\n'))
      case Some(n) => Success((key, n))
      case None => Failure(BadValue)
    else Failure(Unbound)
  }

  /** A size written as `str(n)` with its newline converts back to `n`. */
  lemma ConvertWrittenSize(key: string, n: int)
    requires SizeKey(key)
    ensures ConvertInput(key, IntToString(n) + ['\n']) == Success((key, n))
  {
    IntToStringChars(n);
    RStripOne(IntToString(n), '\n');
    ParseIntToString(n);
  }

  /** The size keys hold no '='. */
  lemma SizeKeyPlain(key: string)
    requires SizeKey(key)
    ensures '=' !in key
  {
    if key == "WIDTH" {
      assert key == ['W', 'I', 'D', 'T', 'H'];
    } else {
      assert key == ['H', 'E', 'I', 'G', 'H', 'T'];
    }
  }

  /** What one line does to the table: store a size, or stop. */
  function CheckLine(cfg: map<string, int>, line: string): Result<map<string, int>, CheckFailure>
  {
    if '=' !in line then Failure(BadValue)
    else
      var parts := Split(line, '=');
      if |parts| != 2 || parts[1] == "\n" then Failure(BadValue)
      else match ConvertInput(parts[0], parts[1])
        case Success((k, n)) => Success(cfg[k := n])
        case Failure(e) => Failure(e)
  }

  /** The table left by the lines after `cfg`, or why the loop stopped. */
  function CheckLines(cfg: map<string, int>, lines: seq<string>): Result<map<string, int>, CheckFailure>
    decreases |lines|
  {
    if lines == [] || lines[0] == "" then Success(cfg)
    else match CheckLine(cfg, lines[0])
      case Success(next) => CheckLines(next, lines[1..])
      case Failure(e) => Failure(e)
  }

  /** The table before any line: every key at 0. */
  const Zeros: map<string, int> := map key | key in CheckerKeys :: 0

  /** The first loop of `__main__`: every key starts at 0. */
  method ZeroKeys() returns (available: map<string, int>)
    ensures available == Zeros
  {
    available := map[];
    for k := 0 to |CheckerKeys|
      invariant forall key :: key in available <==> key in CheckerKeys[..k]
      invariant forall key :: key in available ==> available[key] == 0
    {
      assert CheckerKeys[..k + 1] == CheckerKeys[..k] + [CheckerKeys[k]];
      available := available[CheckerKeys[k] := 0];
    }
    assert CheckerKeys[..|CheckerKeys|] == CheckerKeys;
    assert available.Keys == Zeros.Keys;
  }

  /** Reading a line that is not the end of the file is that line's effect followed by the rest. */
  lemma CheckLinesStep(cfg: map<string, int>, lines: seq<string>)
    requires lines != [] && lines[0] != ""
    ensures CheckLine(cfg, lines[0]).Failure? ==> CheckLines(cfg, lines) == Failure(CheckLine(cfg, lines[0]).error)
    ensures CheckLine(cfg, lines[0]).Success? ==> CheckLines(cfg, lines) == CheckLines(CheckLine(cfg, lines[0]).value, lines[1..])
  {
  }

  /** The `__main__` loop: keys start at 0, then each line is refused or stored over its key. */
  method CheckConfig(lines: seq<string>) returns (r: Result<map<string, int>, CheckFailure>)
    ensures r == CheckLines(Zeros, lines)
  {
    var available := ZeroKeys();
    var i := 0;
    while i < |lines| && lines[i] != ""
      invariant 0 <= i <= |lines|
      invariant CheckLines(available, lines[i..]) == CheckLines(Zeros, lines)
    {
      var line := lines[i];
      CheckLinesStep(available, lines[i..]);
      assert lines[i..][0] == line && lines[i..][1..] == lines[i + 1..];
      ghost var step := CheckLine(available, line);
      if '=' !in line {
        return Failure(BadValue);
      }
      var split := Split(line, '=');
      if |split| != 2 || split[1] == "\n" {
        return Failure(BadValue);
      }
      var result := ConvertInput(split[0], split[1]);
      if result.Failure? {
        return Failure(result.error);
      }
      available := available[result.value.0 := result.value.1];
      assert step == Success(available);
      i := i + 1;
    }
    assert lines[i..] == [] || lines[i..][0] == "";
    return Success(available);
  }

  /** A line with no '=', more than one '=', or a bare newline after '=' stops the loop with ValueError. */
  lemma CheckRefusesShape(cfg: map<string, int>, line: string, rest: seq<string>)
    requires line != ""
    requires Count(line, '=') != 1 || Split(line, '=')[1] == "\n"
    ensures CheckLines(cfg, [line] + rest) == Failure(BadValue)
  {
    CountIn(line, '=');
    CheckLinesStep(cfg, [line] + rest);
    assert ([line] + rest)[0] == line;
  }

  /** Only sizes are ever stored: a table read to its end differs from the start at most on WIDTH and HEIGHT, and keeps its keys. */
  lemma {:induction false} CheckStoresOnlySizes(cfg: map<string, int>, lines: seq<string>)
    requires forall key :: key in cfg <==> key in CheckerKeys
    ensures CheckLines(cfg, lines).Success? ==>
      (forall key :: key in CheckLines(cfg, lines).value <==> key in CheckerKeys)
      && forall key :: key in cfg && !SizeKey(key) ==> CheckLines(cfg, lines).value[key] == cfg[key]
    decreases |lines|
  {
    if lines != [] && lines[0] != "" {
      CheckLinesStep(cfg, lines);
      var step := CheckLine(cfg, lines[0]);
      if step.Success? {
        var parts := Split(lines[0], '=');
        assert step.value == cfg[parts[0] := ConvertInput(parts[0], parts[1]).value.1];
        CheckStoresOnlySizes(step.value, lines[1..]);
      }
    }
  }

  /** Reading one more line after a file read to its end applies that line to the result. */
  lemma {:induction false} CheckLinesAppend(cfg: map<string, int>, lines: seq<string>, line: string)
    requires "" !in lines && line != ""
    requires CheckLines(cfg, lines).Success?
    ensures CheckLines(cfg, lines + [line]) == CheckLine(CheckLines(cfg, lines).value, line)
    decreases |lines|
  {
    if lines == [] {
      assert [] + [line] == [line];
      CheckLinesStep(cfg, [line]);
      assert [line][1..] == [];
    } else {
      var all := lines + [line];
      assert all[0] == lines[0] && all[1..] == lines[1..] + [line];
      assert lines[0] in lines;
      CheckLinesStep(cfg, lines);
      CheckLinesStep(cfg, all);
      CheckLinesAppend(CheckLine(cfg, lines[0]).value, lines[1..], line);
    }
  }

  /** A line `key=value` with no other '=' and a value that is not a bare newline is the conversion of that pair. */
  lemma CheckAssignment(cfg: map<string, int>, key: string, value: string)
    requires '=' !in key && '=' !in value && value != "\n"
    ensures ConvertInput(key, value).Success? ==> CheckLine(cfg, key + ['='] + value) == Success(cfg[key := ConvertInput(key, value).value.1])
  {
    var line := key + ['='] + value;
    assert line[|key|] == '=';
    SplitTwo(key, value, '=');
  }

  /** The line `KEY=n` for a size key stores `n`. */
  lemma CheckWrittenSize(cfg: map<string, int>, key: string, n: int)
    requires SizeKey(key)
    ensures CheckLine(cfg, key + ['='] + (IntToString(n) + ['\n'])) == Success(cfg[key := n])
  {
    var text := IntToString(n) + ['\n'];
    ConvertWrittenSize(key, n);
    assert '=' !in text by {
      IntToStringChars(n);
    }
    SizeKeyPlain(key);
    CheckAssignment(cfg, key, text);
  }

  /** A later `KEY=n` line for a size key overwrites what earlier lines stored. */
  lemma CheckLaterSizeWins(cfg: map<string, int>, lines: seq<string>, key: string, n: int)
    requires "" !in lines && SizeKey(key)
    requires CheckLines(cfg, lines).Success?
    ensures CheckLines(cfg, lines + [key + ['='] + (IntToString(n) + ['\n'])]) == Success(CheckLines(cfg, lines).value[key := n])
  {
    CheckLinesAppend(cfg, lines, key + ['='] + (IntToString(n) + ['\n']));
    CheckWrittenSize(CheckLines(cfg, lines).value, key, n);
  }
}
