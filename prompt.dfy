/**
 * The Y/N prompt of utils/utils.go (Confirm). Standard input is a sequence
 * of line reads, each either a line of text or a read error; the prompt
 * consumes reads from a position until one classifies as an answer.
 *
 * The source loops for ever when no answer ever comes; here the loop stops
 * when the given reads run out and reports that no answer was read.
 */
module Prompt {
  import opened Wrappers
  import opened Text

  datatype LineRead = Line(text: string) | ReadFailure

  datatype Answer = Yes | No | Again

  /** The answer a normalised line gives. */
  function AnswerOf(choice: string): Answer {
    if choice == "Y" then Yes else if choice == "N" then No else Again
  }

  /** Upper-casing gives the one-letter string `[upper]` exactly for that
      letter in either case. */
  lemma UpperOneLetter(s: string, upper: char, lower: char)
    requires 'A' <= upper <= 'Z' && lower == LowerChar(upper)
    ensures ToUpper(s) == [upper] <==> s == [upper] || s == [lower]
  {
    if ToUpper(s) == [upper] {
      assert |s| == 1 && ToUpper(s)[0] == UpperChar(s[0]);
      assert s == [s[0]];
    }
    if s == [upper] || s == [lower] {
      assert ToUpper(s)[0] == UpperChar(s[0]);
    }
  }

  /** One read: an error asks again; a line is an answer when, trimmed and
      upper-cased, it is `Y` or `N`. So `Y` and `N` are accepted in either
      case, and nothing else is an answer. */
  function Classify(r: LineRead): (a: Answer)
    ensures a == Yes <==> r.Line? && (TrimSpace(r.text) == "y" || TrimSpace(r.text) == "Y")
    ensures a == No <==> r.Line? && (TrimSpace(r.text) == "n" || TrimSpace(r.text) == "N")
  {
    match r
    case ReadFailure => Again
    case Line(t) =>
      var s := TrimSpace(t);
      UpperOneLetter(s, 'Y', 'y');
      UpperOneLetter(s, 'N', 'n');
      assert "Y" == ['Y'] && "y" == ['y'] && "N" == ['N'] && "n" == ['n'];
      AnswerOf(ToUpper(s))
  }

  /** What each read means to the prompt. */
  function Answers(lines: seq<LineRead>): (r: seq<Answer>)
    ensures |r| == |lines|
  {
    seq(|lines|, i requires 0 <= i < |lines| => Classify(lines[i]))
  }

  /** The first answer from position `start` on, and the position after it;
      no answer when the reads run out first. */
  function FirstAnswer(answers: seq<Answer>, start: nat): (Option<bool>, nat)
    requires start <= |answers|
    decreases |answers| - start
  {
    if start == |answers| then (None, start)
    else
      match answers[start]
      case Yes => (Some(true), start + 1)
      case No => (Some(false), start + 1)
      case Again => FirstAnswer(answers, start + 1)
  }

  /** The reads FirstAnswer skips are exactly the ones that ask again, and
      the read it stops at is the answer it gives. */
  lemma {:induction false} FirstAnswerSkipsAgain(answers: seq<Answer>, start: nat)
    requires start <= |answers|
    ensures var (answer, next) := FirstAnswer(answers, start);
      && start <= next <= |answers|
      && (forall j :: start <= j < next - 1 ==> answers[j] == Again)
      && (answer.Some? ==> next > start && answers[next - 1] == (if answer.value then Yes else No))
      && (answer.None? ==> next == |answers| && forall j :: start <= j < |answers| ==> answers[j] == Again)
    decreases |answers| - start
  {
    if start < |answers| && answers[start] == Again {
      FirstAnswerSkipsAgain(answers, start + 1);
    }
  }

  /** Confirm: the answer of the first read from `start` on that is one;
      `next` is the position after it. */
  method Confirm(lines: seq<LineRead>, start: nat) returns (answer: Option<bool>, next: nat)
    requires start <= |lines|
    ensures (answer, next) == FirstAnswer(Answers(lines), start)
    ensures start <= next <= |lines|
  {
    ghost var answers := Answers(lines);
    var i := start;
    while i < |lines|
      invariant start <= i <= |lines|
      invariant FirstAnswer(answers, i) == FirstAnswer(answers, start)
    {
      var input := lines[i];
      assert answers[i] == Classify(input);
      i := i + 1;
      if input.ReadFailure? {
        continue;
      }
      var choice := ToUpper(TrimSpace(input.text));
      if choice == "Y" {
        return Some(true), i;
      } else if choice == "N" {
        return Some(false), i;
      }
    }
    return None, i;
  }
}
