/**
 * management/commands/clean_metadata_and_write_new_file.py: turns the metadata file, one Python
 * literal per line, into one JSON array. Each line is parsed with `eval` and serialised with
 * `json.dumps`; both are taken as partial functions (None where they raise). The framing is the
 * array syntax of section 5 of RFC 8259, with ",\n" (a comma and a newline, which is JSON
 * whitespace) between values.
 */
module CleanMetadata {
  import opened Wrappers
  import opened Seqs

  const SEPARATOR: string := ",\n"

  /** The text written to the output file so far and the first_line flag. */
  datatype Writer = Writer(written: string, firstLine: bool)

  /** One pass of the loop body, lines 26-39. */
  function Step<L, O>(w: Writer, line: L, eval: L -> Option<O>, dumps: O -> Option<string>): (r: Writer)
    ensures eval(line).None? ==> r == w
    ensures eval(line).Some? ==> !r.firstLine && |w.written| <= |r.written| && r.written[..|w.written|] == w.written
    ensures eval(line).Some? && !w.firstLine ==>
      |r.written| >= |w.written| + |SEPARATOR| && r.written[|w.written|..|w.written| + |SEPARATOR|] == SEPARATOR
  {
    match eval(line)
    case None => w
    case Some(obj) =>
      var separated := w.written + (if w.firstLine then "" else SEPARATOR);
      match dumps(obj)
      case None => Writer(separated, false)
      case Some(text) => Writer(separated + text, false)
  }

  /** The writer after the loop has seen the given lines, starting from an empty body and first_line = True. */
  function Run<L, O>(lines: seq<L>, eval: L -> Option<O>, dumps: O -> Option<string>): (r: Writer)
    ensures r.firstLine ==> r.written == ""
    decreases |lines|
  {
    if lines == [] then Writer("", true)
    else Step(Run(lines[..|lines| - 1], eval, dumps), lines[|lines| - 1], eval, dumps)
  }

  /** The whole output file: '[' (line 22), the loop's writes, ']' (line 41). */
  function Output<L, O>(lines: seq<L>, eval: L -> Option<O>, dumps: O -> Option<string>): (o: string)
    ensures |o| >= 2 && o[0] == '[' && o[|o| - 1] == ']'
  {
    "[" + Run(lines, eval, dumps).written + "]"
  }

  /** The objects eval produced, in line order. */
  function Parsed<L, O>(lines: seq<L>, eval: L -> Option<O>): seq<O>
    decreases |lines|
  {
    if lines == [] then []
    else Parsed(lines[..|lines| - 1], eval) + (match eval(lines[|lines| - 1]) case Some(o) => [o] case None => [])
  }

  /** The texts json.dumps produced for the parsed objects, in line order. */
  function Dumped<L, O>(lines: seq<L>, eval: L -> Option<O>, dumps: O -> Option<string>): seq<string>
    decreases |lines|
  {
    if lines == [] then []
    else
      Dumped(lines[..|lines| - 1], eval, dumps) +
      (match eval(lines[|lines| - 1])
       case Some(o) => (match dumps(o) case Some(text) => [text] case None => [])
       case None => [])
  }

  /** A JSON array of the given value texts, separated by ",\n" (RFC 8259, section 5). */
  function ArrayText(values: seq<string>): string
  {
    "[" + Join(SEPARATOR, values) + "]"
  }

  /** The characters a JSON value can begin with (RFC 8259, sections 3 and 4 to 7). */
  predicate BeginsValue(c: char)
  {
    c in "{[\"-0123456789tfn"
  }

  /** Texts that each begin a JSON value, as json.dumps output does. */
  predicate ValueTexts(values: seq<string>)
  {
    forall i :: 0 <= i < |values| ==> values[i] != "" && BeginsValue(values[i][0])
  }

  /** Command.handle, lines 21-41: the loop over the input lines with the first_line flag. */
  method CleanMetadataAndWrite<L, O>(lines: seq<L>, eval: L -> Option<O>, dumps: O -> Option<string>) returns (out: string)
    ensures out == Output(lines, eval, dumps)
  {
    out := "[";
    var firstLine := true;
    for i := 0 to |lines|
      invariant out == "[" + Run(lines[..i], eval, dumps).written
      invariant firstLine == Run(lines[..i], eval, dumps).firstLine
    {
      assert lines[..i + 1][..i] == lines[..i];
      var parsed := eval(lines[i]);
      if parsed.Some? {
        if !firstLine {
          out := out + SEPARATOR;
        }
        firstLine := false;
        var text := dumps(parsed.value);
        if text.Some? {
          out := out + text.value;
        }
      }
    }
    assert lines[..|lines|] == lines;
    out := out + "]";
  }

  /** first_line stays True exactly as long as no line has been parsed. */
  lemma {:induction false} FirstLineUntilParsed<L, O>(lines: seq<L>, eval: L -> Option<O>, dumps: O -> Option<string>)
    ensures Run(lines, eval, dumps).firstLine <==> Parsed(lines, eval) == []
    ensures Parsed(lines, eval) == [] ==> Run(lines, eval, dumps).written == ""
    decreases |lines|
  {
    if lines != [] {
      FirstLineUntilParsed(lines[..|lines| - 1], eval, dumps);
    }
  }

  /** Without a successfully parsed line the output is exactly "[]". */
  lemma NothingParsed<L, O>(lines: seq<L>, eval: L -> Option<O>, dumps: O -> Option<string>)
    requires forall i :: 0 <= i < |lines| ==> eval(lines[i]).None?
    ensures Output(lines, eval, dumps) == "[]"
  {
    ParsedNone(lines, eval);
    FirstLineUntilParsed(lines, eval, dumps);
  }

  /** A line that eval rejects writes nothing and leaves first_line as it was (lines 28 and 38-39). */
  lemma FailedEvalWritesNothing<L, O>(lines: seq<L>, i: nat, eval: L -> Option<O>, dumps: O -> Option<string>)
    requires i < |lines| && eval(lines[i]).None?
    ensures Run(lines[..i + 1], eval, dumps) == Run(lines[..i], eval, dumps)
    ensures Parsed(lines[..i + 1], eval) == Parsed(lines[..i], eval)
  {
    assert lines[..i + 1][..i] == lines[..i];
  }

  /** When eval rejects every line, no object is produced. */
  lemma {:induction false} ParsedNone<L, O>(lines: seq<L>, eval: L -> Option<O>)
    requires forall i :: 0 <= i < |lines| ==> eval(lines[i]).None?
    ensures Parsed(lines, eval) == []
    decreases |lines|
  {
    if lines != [] {
      ParsedNone(lines[..|lines| - 1], eval);
    }
  }

  /** When json.dumps never fails, there is one serialisation per parsed line, each that line's json.dumps. */
  lemma {:induction false} DumpedWhenDumpsSucceed<L, O>(lines: seq<L>, eval: L -> Option<O>, dumps: O -> Option<string>)
    requires forall i :: 0 <= i < |lines| && eval(lines[i]).Some? ==> dumps(eval(lines[i]).value).Some?
    ensures |Dumped(lines, eval, dumps)| == |Parsed(lines, eval)|
    ensures forall k :: 0 <= k < |Parsed(lines, eval)| ==> dumps(Parsed(lines, eval)[k]) == Some(Dumped(lines, eval, dumps)[k])
    decreases |lines|
  {
    if lines != [] {
      var init := lines[..|lines| - 1];
      assert forall i :: 0 <= i < |init| ==> init[i] == lines[i];
      DumpedWhenDumpsSucceed(init, eval, dumps);
    }
  }

  /**
   * When json.dumps succeeds on every parsed object, the output is the JSON array of those
   * serialisations, in input order, separated by ",\n", with no separator before the first.
   */
  lemma {:induction false} ArrayWhenDumpsSucceed<L, O>(lines: seq<L>, eval: L -> Option<O>, dumps: O -> Option<string>)
    requires forall i :: 0 <= i < |lines| && eval(lines[i]).Some? ==> dumps(eval(lines[i]).value).Some?
    ensures Run(lines, eval, dumps).written == Join(SEPARATOR, Dumped(lines, eval, dumps))
    ensures Output(lines, eval, dumps) == ArrayText(Dumped(lines, eval, dumps))
    decreases |lines|
  {
    if lines != [] {
      var init := lines[..|lines| - 1];
      assert forall i :: 0 <= i < |init| ==> init[i] == lines[i];
      ArrayWhenDumpsSucceed(init, eval, dumps);
      FirstLineUntilParsed(init, eval, dumps);
      DumpedWhenDumpsSucceed(init, eval, dumps);
      var w := Run(init, eval, dumps);
      var before := Dumped(init, eval, dumps);
      assert w.firstLine <==> before == [];
      match eval(lines[|lines| - 1])
      case None =>
        assert Run(lines, eval, dumps) == w;
        assert Dumped(lines, eval, dumps) == before;
      case Some(o) =>
        var text := dumps(o).value;
        assert Dumped(lines, eval, dumps) == before + [text];
        if before != [] {
          assert Run(lines, eval, dumps).written == w.written + SEPARATOR + text;
          JoinSnoc(SEPARATOR, before, text);
        } else {
          assert Run(lines, eval, dumps).written == text;
        }
    }
  }

  /** The writer's text only grows as more lines are read. */
  lemma {:induction false} RunExtends<L, O>(lines: seq<L>, j: nat, eval: L -> Option<O>, dumps: O -> Option<string>)
    requires j <= |lines|
    ensures Run(lines[..j], eval, dumps).written <= Run(lines, eval, dumps).written
    decreases |lines|
  {
    if j < |lines| {
      var init := lines[..|lines| - 1];
      assert init[..j] == lines[..j];
      RunExtends(init, j, eval, dumps);
    } else {
      assert lines[..j] == lines;
    }
  }

  /** The character after '[' of a JSON array of value texts is ']' or the first character of a value. */
  lemma ArrayTextSecond(values: seq<string>)
    requires ValueTexts(values)
    ensures |ArrayText(values)| >= 2
    ensures ArrayText(values)[1] == ']' || BeginsValue(ArrayText(values)[1])
  {
    if values != [] {
      JoinHead(SEPARATOR, values);
      assert ArrayText(values)[1] == values[0][0];
    } else {
      assert ArrayText(values) == "[]";
    }
  }

  /** The first two lines of the case below write exactly the separator and whatever the second line serialises to. */
  lemma FailedFirstDump<L, O>(lines: seq<L>, eval: L -> Option<O>, dumps: O -> Option<string>)
    requires 2 <= |lines| && eval(lines[0]).Some? && dumps(eval(lines[0]).value).None? && eval(lines[1]).Some?
    ensures |Run(lines[..2], eval, dumps).written| >= 2 && Run(lines[..2], eval, dumps).written[..2] == SEPARATOR
  {
    assert lines[..2][..1] == lines[..1];
    assert lines[..1][..0] == [];
    assert Run(lines[..1], eval, dumps) == Writer("", false);
  }

  /**
   * As written: the separator is written and first_line cleared before json.dumps runs. If the
   * first parsed object cannot be serialised and the next line parses, the file starts with
   * "[,": no JSON array text (RFC 8259 section 5) begins that way.
   */
  lemma DanglingSeparator<L, O>(lines: seq<L>, eval: L -> Option<O>, dumps: O -> Option<string>)
    requires 2 <= |lines| && eval(lines[0]).Some? && dumps(eval(lines[0]).value).None? && eval(lines[1]).Some?
    ensures Output(lines, eval, dumps)[1] == ','
    ensures forall values :: ValueTexts(values) ==> Output(lines, eval, dumps) != ArrayText(values)
  {
    FailedFirstDump(lines, eval, dumps);
    RunExtends(lines, 2, eval, dumps);
    var written := Run(lines, eval, dumps).written;
    assert written[0] == ',';
    var out := Output(lines, eval, dumps);
    assert out[1] == written[0];
    assert !BeginsValue(',');
    forall values | ValueTexts(values) ensures out != ArrayText(values) {
      ArrayTextSecond(values);
    }
  }

  /** Corrected loop body: the separator is written together with the serialised object, only once json.dumps has succeeded. */
  function FixedStep<L, O>(w: Writer, line: L, eval: L -> Option<O>, dumps: O -> Option<string>): Writer
  {
    match eval(line)
    case None => w
    case Some(obj) =>
      match dumps(obj)
      case None => w
      case Some(text) => Writer(w.written + (if w.firstLine then "" else SEPARATOR) + text, false)
  }

  function FixedRun<L, O>(lines: seq<L>, eval: L -> Option<O>, dumps: O -> Option<string>): Writer
    decreases |lines|
  {
    if lines == [] then Writer("", true)
    else FixedStep(FixedRun(lines[..|lines| - 1], eval, dumps), lines[|lines| - 1], eval, dumps)
  }

  function FixedOutput<L, O>(lines: seq<L>, eval: L -> Option<O>, dumps: O -> Option<string>): string
  {
    "[" + FixedRun(lines, eval, dumps).written + "]"
  }

  /** The corrected command always writes the JSON array of the objects it could serialise, in input order. */
  lemma {:induction false} FixedIsArray<L, O>(lines: seq<L>, eval: L -> Option<O>, dumps: O -> Option<string>)
    ensures FixedRun(lines, eval, dumps).firstLine <==> Dumped(lines, eval, dumps) == []
    ensures FixedRun(lines, eval, dumps).written == Join(SEPARATOR, Dumped(lines, eval, dumps))
    ensures FixedOutput(lines, eval, dumps) == ArrayText(Dumped(lines, eval, dumps))
    decreases |lines|
  {
    if lines != [] {
      var init := lines[..|lines| - 1];
      FixedIsArray(init, eval, dumps);
      var before := Dumped(init, eval, dumps);
      match eval(lines[|lines| - 1])
      case None =>
        assert FixedRun(lines, eval, dumps) == FixedRun(init, eval, dumps);
        assert Dumped(lines, eval, dumps) == before;
      case Some(o) =>
        match dumps(o)
        case None =>
          assert FixedRun(lines, eval, dumps) == FixedRun(init, eval, dumps);
          assert Dumped(lines, eval, dumps) == before;
        case Some(text) =>
          assert Dumped(lines, eval, dumps) == before + [text];
          if before != [] {
            JoinSnoc(SEPARATOR, before, text);
          }
    }
  }
}
