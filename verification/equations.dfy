/**
 * The equation pre-pass (`process_equations`): a small state machine over the
 * stripped input lines that re-flows `\[ .. \]`, `\( .. \)` and `$$ .. $$` blocks.
 * The line holding the start delimiter is dropped, the first content line gets
 * the start token in front, and the line holding the end token is dropped while
 * the token is appended to the previous output line.
 */
module EquationPass {
  import opened Wrappers
  import opened Text

  /** The three delimiter pairs, in the order of the source's dictionary. */
  datatype Delimiter = Bracket | Paren | Dollars

  const Delimiters: seq<Delimiter> := [Bracket, Paren, Dollars]

  function Start(d: Delimiter): string {
    match d
    case Bracket => "\\["
    case Paren => "\\("
    case Dollars => "$$"
  }

  function End(d: Delimiter): string {
    match d
    case Bracket => "\\]"
    case Paren => "\\)"
    case Dollars => "$$"
  }

  /**
   * The pass's variables: `org_output`, `in_equation`, `equation_start_found`
   * and `current_delimiter` (meaningful only while `inEquation` holds).
   */
  datatype EqState = EqState(out: seq<string>, inEquation: bool, startFound: bool, delimiter: Delimiter)

  const EqInit := EqState([], false, false, Bracket)

  /** The position of `d` in `Delimiters`. */
  function Order(d: Delimiter): (m: nat)
    ensures m < |Delimiters| && Delimiters[m] == d
  {
    match d
    case Bracket => 0
    case Paren => 1
    case Dollars => 2
  }

  /** The first delimiter pair, in dictionary order from index `j` on, whose start token occurs in `s`. */
  function OpeningFrom(s: string, j: nat): (r: Option<Delimiter>)
    requires j <= |Delimiters|
    ensures r.Some? ==> j <= Order(r.value) && Contains(s, Start(r.value))
    ensures r.Some? ==> forall m :: j <= m < Order(r.value) ==> !Contains(s, Start(Delimiters[m]))
    ensures r.None? ==> forall m :: j <= m < |Delimiters| ==> !Contains(s, Start(Delimiters[m]))
    decreases |Delimiters| - j
  {
    if j == |Delimiters| then None
    else if Contains(s, Start(Delimiters[j])) then Some(Delimiters[j])
    else OpeningFrom(s, j + 1)
  }

  function Opening(s: string): Option<Delimiter> {
    OpeningFrom(s, 0)
  }

  /** One iteration of the loop over the input lines. */
  function EqStep(st: EqState, line: string): Result<EqState> {
    var s := Strip(line);
    if st.inEquation then
      if Contains(s, End(st.delimiter)) then
        if |st.out| == 0 then Err(LastOfEmptyList)
        else
          var last := st.out[|st.out| - 1];
          Ok(st.(inEquation := false, out := st.out[..|st.out| - 1] + [last + " " + End(st.delimiter)]))
      else if !st.startFound then
        Ok(st.(out := st.out + [Start(st.delimiter) + " " + s], startFound := true))
      else
        Ok(st.(out := st.out + [s]))
    else
      match Opening(s)
      case Some(d) => Ok(st.(inEquation := true, delimiter := d, startFound := false))
      case None => Ok(st.(out := st.out + [s]))
  }

  /** The loop over `lines` from state `st`; a crash ends it. */
  function EqRun(st: EqState, lines: seq<string>): Result<EqState>
    decreases |lines|
  {
    if lines == [] then Ok(st)
    else
      match EqStep(st, lines[0])
      case Err(f) => Err(f)
      case Ok(st') => EqRun(st', lines[1..])
  }

  /** `process_equations`: the re-flowed lines, or the crash. */
  function Equations(lines: seq<string>): Result<seq<string>> {
    match EqRun(EqInit, lines)
    case Err(f) => Err(f)
    case Ok(st) => Ok(st.out)
  }

  /** Every line stripped, in order. */
  function StripAll(lines: seq<string>): (r: seq<string>)
    ensures |r| == |lines| && forall k :: 0 <= k < |lines| ==> r[k] == Strip(lines[k])
    decreases |lines|
  {
    if lines == [] then [] else [Strip(lines[0])] + StripAll(lines[1..])
  }

  /** Running over `a + b` is running over `a`, then over `b`. */
  lemma {:induction false} EqRunAppend(st: EqState, a: seq<string>, b: seq<string>)
    ensures EqRun(st, a + b) == match EqRun(st, a) case Err(f) => Err(f) case Ok(st') => EqRun(st', b)
    decreases |a|
  {
    if a == [] {
      assert a + b == b;
    } else {
      assert (a + b)[0] == a[0] && (a + b)[1..] == a[1..] + b;
      var r := EqStep(st, a[0]);
      if r.Ok? {
        EqRunAppend(r.value, a[1..], b);
      }
    }
  }

  /** The pass never produces more lines than it reads. */
  lemma {:induction false} EqRunLength(st: EqState, lines: seq<string>)
    requires EqRun(st, lines).Ok?
    ensures |EqRun(st, lines).value.out| <= |st.out| + |lines|
    decreases |lines|
  {
    if lines != [] {
      EqRunLength(EqStep(st, lines[0]).value, lines[1..]);
    }
  }

  lemma EquationsLength(lines: seq<string>)
    requires Equations(lines).Ok?
    ensures |Equations(lines).value| <= |lines|
  {
    EqRunLength(EqInit, lines);
  }

  /**
   * Outside an equation, lines without a start delimiter pass through
   * stripped, one for one and in order.
   */
  lemma {:induction false} EqPassThrough(st: EqState, lines: seq<string>)
    requires !st.inEquation
    requires forall k :: 0 <= k < |lines| ==> Opening(Strip(lines[k])).None?
    ensures EqRun(st, lines) == Ok(st.(out := st.out + StripAll(lines)))
    decreases |lines|
  {
    if lines == [] {
      assert st.out + StripAll(lines) == st.out;
    } else {
      var st' := st.(out := st.out + [Strip(lines[0])]);
      assert EqStep(st, lines[0]) == Ok(st');
      EqPassThrough(st', lines[1..]);
      assert StripAll(lines) == [Strip(lines[0])] + StripAll(lines[1..]);
      ConcatAssoc(st.out, [Strip(lines[0])], StripAll(lines[1..]));
    }
  }

  /** Inside an equation whose first line is out, lines without the end token are copied stripped. */
  lemma {:induction false} EqBody(st: EqState, lines: seq<string>)
    requires st.inEquation && st.startFound
    requires forall k :: 0 <= k < |lines| ==> !Contains(Strip(lines[k]), End(st.delimiter))
    ensures EqRun(st, lines) == Ok(st.(out := st.out + StripAll(lines)))
    decreases |lines|
  {
    if lines == [] {
      assert st.out + StripAll(lines) == st.out;
    } else {
      var st' := st.(out := st.out + [Strip(lines[0])]);
      assert EqStep(st, lines[0]) == Ok(st');
      EqBody(st', lines[1..]);
      assert StripAll(lines) == [Strip(lines[0])] + StripAll(lines[1..]);
      ConcatAssoc(st.out, [Strip(lines[0])], StripAll(lines[1..]));
    }
  }

  /**
   * An opening line with `\[` followed by content lines without `\]`: the opening
   * line is dropped, the content is copied stripped with `\[ ` in front of the
   * first line, and the equation stays opening. This is also what happens after a
   * one-line `\[ x \]`: it opens an equation that swallows the following lines.
   */
  lemma EqOpenBlock(st: EqState, opening: string, body: seq<string>)
    requires !st.inEquation
    requires Contains(Strip(opening), "\\[")
    requires |body| >= 1
    requires forall k :: 0 <= k < |body| ==> !Contains(Strip(body[k]), "\\]")
    ensures EqRun(st, [opening] + body).Ok?
    ensures var st' := EqRun(st, [opening] + body).value;
      st'.inEquation && st'.startFound && st'.delimiter == Bracket
      && st'.out == st.out + ["\\[ " + Strip(body[0])] + StripAll(body[1..])
  {
    var entered := st.(inEquation := true, delimiter := Bracket, startFound := false);
    assert EqStep(st, opening) == Ok(entered);
    var first := entered.(out := st.out + ["\\[ " + Strip(body[0])], startFound := true);
    assert Start(Bracket) + " " + Strip(body[0]) == "\\[ " + Strip(body[0]);
    assert EqStep(entered, body[0]) == Ok(first);
    EqBody(first, body[1..]);
    assert ([opening] + body)[1..] == body;
  }

  lemma EqRunSingle(st: EqState, line: string)
    ensures EqRun(st, [line]) == EqStep(st, line)
  {
    assert [line][0] == line && [line][1..] == [];
  }

  /** Closing an open equation appends the end token to the last output line. */
  lemma EqClose(st: EqState, close: string)
    requires st.inEquation && Contains(Strip(close), End(st.delimiter))
    ensures |st.out| == 0 ==> EqStep(st, close) == Err(LastOfEmptyList)
    ensures |st.out| > 0 ==>
      EqStep(st, close) == Ok(st.(inEquation := false,
        out := st.out[..|st.out| - 1] + [st.out[|st.out| - 1] + " " + End(st.delimiter)]))
  {
  }

  /**
   * The output after a whole `\[` block: the content lines stripped, `\[ `
   * before the first one and ` \]` after the last one.
   */
  function ClosedBlock(prev: seq<string>, body: seq<string>): seq<string>
    requires |body| >= 1
  {
    CloseLastLine(prev + ["\\[ " + Strip(body[0])] + StripAll(body[1..]))
  }

  /** `lines` with ` \]` appended to its last line. */
  function CloseLastLine(lines: seq<string>): seq<string>
    requires |lines| >= 1
  {
    lines[..|lines| - 1] + [lines[|lines| - 1] + " \\]"]
  }

  /**
   * A closed `\[` block holds exactly one output line per content line: the
   * earlier output is kept, the first content line carries `\[ `, the last one
   * ` \]`, and the ones between are the stripped content lines.
   */
  lemma BlockLines(prev: seq<string>, body: seq<string>)
    requires |body| >= 1
    ensures var out := ClosedBlock(prev, body);
      |out| == |prev| + |body| && out[..|prev|] == prev
      && (|body| == 1 ==> out[|prev|] == "\\[ " + Strip(body[0]) + " \\]")
      && (|body| > 1 ==>
            out[|prev|] == "\\[ " + Strip(body[0])
            && out[|out| - 1] == Strip(body[|body| - 1]) + " \\]"
            && forall k :: 0 < k < |body| - 1 ==> out[|prev| + k] == Strip(body[k]))
  {
    BlockHead(prev, body);
    if |body| > 1 {
      BlockLast(prev, body);
      forall k | 0 < k < |body| - 1
        ensures ClosedBlock(prev, body)[|prev| + k] == Strip(body[k])
      {
        BlockMiddle(prev, body, k);
      }
    }
  }

  lemma BlockHead(prev: seq<string>, body: seq<string>)
    requires |body| >= 1
    ensures var out := ClosedBlock(prev, body);
      |out| == |prev| + |body| && out[..|prev|] == prev
      && out[|prev|] == "\\[ " + Strip(body[0]) + (if |body| == 1 then " \\]" else "")
  {
    var mid := prev + ["\\[ " + Strip(body[0])] + StripAll(body[1..]);
    var out := ClosedBlock(prev, body);
    assert out[..|prev|] == prev;
    if |body| > 1 {
      assert out[|prev|] == mid[|prev|];
    }
  }

  lemma BlockLast(prev: seq<string>, body: seq<string>)
    requires |body| > 1
    ensures var out := ClosedBlock(prev, body);
      |out| == |prev| + |body| && out[|out| - 1] == Strip(body[|body| - 1]) + " \\]"
  {
    var tail := StripAll(body[1..]);
    CloseLast(prev, "\\[ " + Strip(body[0]), tail);
    assert body[1..][|body| - 2] == body[|body| - 1];
  }

  lemma BlockMiddle(prev: seq<string>, body: seq<string>, k: nat)
    requires 0 < k < |body| - 1
    ensures |ClosedBlock(prev, body)| == |prev| + |body|
    ensures ClosedBlock(prev, body)[|prev| + k] == Strip(body[k])
  {
    var tail := StripAll(body[1..]);
    CloseLast(prev, "\\[ " + Strip(body[0]), tail);
    assert body[1..][k - 1] == body[k];
  }

  /** Appending ` \]` to the last line keeps the lines before it. */
  lemma CloseLast(prev: seq<string>, head: string, tail: seq<string>)
    requires |tail| >= 1
    ensures var out := CloseLastLine(prev + [head] + tail);
      |out| == |prev| + 1 + |tail| && out[|out| - 1] == tail[|tail| - 1] + " \\]"
      && forall k :: 0 <= k < |tail| - 1 ==> out[|prev| + 1 + k] == tail[k]
  {
  }

  /** The closing line of a `\[` block puts ` \]` on the last content line. */
  lemma CloseBlockStep(before: EqState, close: string)
    requires |before.out| >= 1
    requires before.inEquation && before.startFound && before.delimiter == Bracket
    requires Contains(Strip(close), "\\]")
    ensures EqRun(before, [close])
      == Ok(EqState(CloseLastLine(before.out), false, true, Bracket))
  {
    EqRunSingle(before, close);
    EqClose(before, close);
    ClosedLast(before.out[|before.out| - 1]);
  }

  lemma ClosedLast(x: string)
    ensures x + " " + End(Bracket) == x + " \\]"
  {
    assert " " + End(Bracket) == " \\]";
    ConcatAssoc(x, " ", End(Bracket));
  }

  /**
   * A whole `\[` block, from an opening line with `\[` through N >= 1 content
   * lines without `\]` to a closing line with `\]`, yields `ClosedBlock` and
   * leaves the equation closed.
   */
  lemma EqBlock(st: EqState, opening: string, body: seq<string>, close: string)
    requires !st.inEquation
    requires Contains(Strip(opening), "\\[")
    requires |body| >= 1
    requires forall k :: 0 <= k < |body| ==> !Contains(Strip(body[k]), "\\]")
    requires Contains(Strip(close), "\\]")
    ensures EqRun(st, [opening] + body + [close]) == Ok(EqState(ClosedBlock(st.out, body), false, true, Bracket))
  {
    var head := [opening] + body;
    OpenedBlock(st, opening, body);
    CloseOpenedBlock(st.out, body, close);
    EqRunAppend(st, head, [close]);
  }

  lemma OpenedBlock(st: EqState, opening: string, body: seq<string>)
    requires !st.inEquation
    requires Contains(Strip(opening), "\\[")
    requires |body| >= 1
    requires forall k :: 0 <= k < |body| ==> !Contains(Strip(body[k]), "\\]")
    ensures EqRun(st, [opening] + body)
      == Ok(EqState(st.out + ["\\[ " + Strip(body[0])] + StripAll(body[1..]), true, true, Bracket))
  {
    EqOpenBlock(st, opening, body);
  }

  lemma CloseOpenedBlock(prev: seq<string>, body: seq<string>, close: string)
    requires |body| >= 1
    requires Contains(Strip(close), "\\]")
    ensures EqRun(EqState(prev + ["\\[ " + Strip(body[0])] + StripAll(body[1..]), true, true, Bracket), [close])
      == Ok(EqState(ClosedBlock(prev, body), false, true, Bracket))
  {
    CloseBlockStep(EqState(prev + ["\\[ " + Strip(body[0])] + StripAll(body[1..]), true, true, Bracket), close);
  }


  /**
   * The end token goes onto the previous output line, whatever that line is: an
   * empty equation right after a line of text closes onto that text line, and
   * with no output yet the pass crashes.
   */
  lemma EqEmptyBlock(st: EqState, opening: string, close: string)
    requires !st.inEquation
    requires Contains(Strip(opening), "\\[") && Contains(Strip(close), "\\]")
    ensures st.out == [] ==> EqRun(st, [opening, close]) == Err(LastOfEmptyList)
    ensures st.out != [] ==>
      (EqRun(st, [opening, close]).Ok?
       && EqRun(st, [opening, close]).value.out == st.out[..|st.out| - 1] + [st.out[|st.out| - 1] + " \\]"])
  {
    var entered := st.(inEquation := true, delimiter := Bracket, startFound := false);
    assert EqStep(st, opening) == Ok(entered);
    assert [opening, close] == [opening] + [close];
    EqRunAppend(st, [opening], [close]);
    EqRunSingle(st, opening);
    EqRunSingle(entered, close);
    EqClose(entered, close);
    if st.out != [] {
      var last := st.out[|st.out| - 1];
      assert " " + End(Bracket) == " \\]";
      ConcatAssoc(last, " ", End(Bracket));
    }
  }

  /** `process_equations` as the source writes it: one loop over the lines updating the flags. */
  method ProcessEquations(latexInput: seq<string>) returns (r: Result<seq<string>>)
    ensures r == Equations(latexInput)
  {
    var orgOutput: seq<string> := [];
    var inEquation := false;
    var equationStartFound := false;
    var currentDelimiter := Bracket;
    for i := 0 to |latexInput|
      invariant EqRun(EqInit, latexInput)
        == EqRun(EqState(orgOutput, inEquation, equationStartFound, currentDelimiter), latexInput[i..])
    {
      ghost var st := EqState(orgOutput, inEquation, equationStartFound, currentDelimiter);
      assert latexInput[i..][1..] == latexInput[i + 1..];
      var strippedLine := Strip(latexInput[i]);
      if inEquation {
        if Contains(strippedLine, End(currentDelimiter)) {
          inEquation := false;
          if |orgOutput| == 0 {
            return Err(LastOfEmptyList);
          }
          orgOutput := orgOutput[..|orgOutput| - 1] + [orgOutput[|orgOutput| - 1] + " " + End(currentDelimiter)];
        } else {
          if !equationStartFound {
            orgOutput := orgOutput + [Start(currentDelimiter) + " " + strippedLine];
            equationStartFound := true;
          } else {
            orgOutput := orgOutput + [strippedLine];
          }
        }
      } else {
        for j := 0 to |Delimiters|
          invariant !inEquation ==> OpeningFrom(strippedLine, 0) == OpeningFrom(strippedLine, j)
          invariant inEquation ==> Opening(strippedLine) == Some(currentDelimiter) && !equationStartFound
        {
          if Contains(strippedLine, Start(Delimiters[j])) {
            inEquation := true;
            currentDelimiter := Delimiters[j];
            equationStartFound := false;
            break;
          }
        }
        if !inEquation {
          orgOutput := orgOutput + [strippedLine];
        }
      }
      assert EqStep(st, latexInput[i])
        == Ok(EqState(orgOutput, inEquation, equationStartFound, currentDelimiter));
    }
    return Ok(orgOutput);
  }
}
