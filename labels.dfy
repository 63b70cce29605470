/**
 * Basic-block labels: an instruction range (from, to) plus the textual
 * stack-frame prefix that tells inlined copies of a macro apart.
 * The label type itself (label.hpp) is not part of this model; its entry and
 * exit constants, `make_jump` and its printed form are fixed here.
 */
module Labels {
  import opened Strings

  datatype Label = Label(from: int, to: int, stackFramePrefix: string)

  /** STACK_FRAME_DELIMITER. */
  const StackFrameDelimiter: char := '/'

  const IntMax: int := 0x7fff_ffff

  /** label_t::entry and label_t::exit. */
  const EntryLabel: Label := Label(-1, -1, "")
  const ExitLabel: Label := Label(IntMax, -1, "")

  /** label_t::make_jump: the synthetic label of the edge src -> target. */
  function MakeJump(src: Label, target: Label): (l: Label)
    ensures l.from == src.from && l.to == target.from
    ensures l.stackFramePrefix == target.stackFramePrefix
  {
    Label(src.from, target.from, target.stackFramePrefix)
  }

  /** The printed form of a label: `[prefix/]from[:to]`, or "entry" / "exit". */
  function LabelToString(l: Label): string
  {
    if l == EntryLabel then "entry"
    else if l == ExitLabel then "exit"
    else
      (if l.stackFramePrefix == [] then [] else l.stackFramePrefix + [StackFrameDelimiter])
      + IntToString(l.from)
      + (if l.to == -1 then [] else ":" + IntToString(l.to))
  }

  /** Number of call frames a label's string stands for (the count used by the inliner). */
  function FrameDepth(l: Label): int
  {
    CountChar(LabelToString(l), StackFrameDelimiter) + 2
  }

  lemma NumberHasNoDelimiter(i: int)
    ensures CountChar(IntToString(i), StackFrameDelimiter) == 0
  {
    CountCharAbsent(IntToString(i), StackFrameDelimiter);
  }

  /** The delimiters of a printed label are those of its prefix, plus one joining the prefix. */
  lemma {:induction false} DelimitersOfLabel(l: Label)
    ensures CountChar(LabelToString(l), StackFrameDelimiter)
         == CountChar(l.stackFramePrefix, StackFrameDelimiter) + (if l.stackFramePrefix == [] then 0 else 1)
  {
    if l != EntryLabel && l != ExitLabel {
      var head := if l.stackFramePrefix == [] then [] else l.stackFramePrefix + [StackFrameDelimiter];
      var tail := if l.to == -1 then [] else ":" + IntToString(l.to);
      NumberHasNoDelimiter(l.from);
      CountCharConcat(head + IntToString(l.from), tail, StackFrameDelimiter);
      CountCharConcat(head, IntToString(l.from), StackFrameDelimiter);
      if l.stackFramePrefix != [] {
        CountCharConcat(l.stackFramePrefix, [StackFrameDelimiter], StackFrameDelimiter);
      }
      if l.to != -1 {
        NumberHasNoDelimiter(l.to);
        CountCharConcat(":", IntToString(l.to), StackFrameDelimiter);
      }
    } else {
      CountCharAbsent(LabelToString(l), StackFrameDelimiter);
    }
  }

  /** A label cloned into the frame of `caller` is exactly one frame deeper than `caller`. */
  lemma CloneIsOneFrameDeeper(caller: Label, from: int, to: int)
    ensures FrameDepth(Label(from, to, LabelToString(caller))) == FrameDepth(caller) + 1
  {
    var clone := Label(from, to, LabelToString(caller));
    DelimitersOfLabel(clone);
    assert clone != EntryLabel && clone != ExitLabel by {
      assert |LabelToString(caller)| > 0;
    }
  }

  /** A label's printed form is never its own prefix, so a clone never equals its caller. */
  lemma {:induction false} PrintedLongerThanPrefix(l: Label)
    ensures |LabelToString(l)| > |l.stackFramePrefix|
  {
  }

  /** The printed form of a label starts with the label's own prefix. */
  lemma PrintedStartsWithPrefix(l: Label)
    ensures StartsWith(LabelToString(l), l.stackFramePrefix)
  {
    if l.stackFramePrefix != [] {
      var t := [StackFrameDelimiter] + IntToString(l.from) + (if l.to == -1 then [] else ":" + IntToString(l.to));
      assert LabelToString(l) == l.stackFramePrefix + t;
    }
  }
}
