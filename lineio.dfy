/** The text layer of a snapshot file: the writer appends `text + "\n"` per
    record, and the reader splits the file with `BufRead::lines`. */
module LineIo {

  /** Position of the first `'\n'` in `s`, or `|s|` when there is none. */
  function LineEnd(s: string): (k: nat)
    ensures k <= |s|
    ensures '\n' !in s[..k]
    ensures k < |s| ==> s[k] == '\n'
  {
    if s == [] || s[0] == '\n' then 0
    else
      var k := 1 + LineEnd(s[1..]);
      assert s[..k] == [s[0]] + s[1..][..k - 1];
      k
  }

  /** `BufRead::lines`: each line without its terminator; a `"\r\n"`
      terminator loses the `'\r'` too, and a last line without terminator is
      still a line. An empty text has no lines. */
  function Lines(s: string): (ls: seq<string>)
    decreases |s|
  {
    if s == [] then []
    else
      var k := LineEnd(s);
      if k == |s| then [s]
      else [StripCr(s[..k])] + Lines(s[k + 1..])
  }

  function StripCr(l: string): string {
    if |l| > 0 && l[|l| - 1] == '\r' then l[..|l| - 1] else l
  }

  /** A text that `lines` gives back unchanged once it is written with a
      terminating `'\n'`. */
  predicate IsLine(l: string) {
    '\n' !in l && !(|l| > 0 && l[|l| - 1] == '\r')
  }

  /** Every one of `ls` is a line. */
  predicate AllLines(ls: seq<string>) {
    forall i :: 0 <= i < |ls| ==> IsLine(ls[i])
  }

  /** The text of `ls` written as `l + "\n"` each, in order. */
  function Terminated(ls: seq<string>): (s: string)
  {
    if ls == [] then [] else ls[0] + "\n" + Terminated(ls[1..])
  }

  lemma {:induction false} TerminatedAppend(ls: seq<string>, l: string)
    ensures Terminated(ls + [l]) == Terminated(ls) + l + "\n"
  {
    if ls == [] {
      assert ls + [l] == [l];
    } else {
      assert (ls + [l])[1..] == ls[1..] + [l];
      TerminatedAppend(ls[1..], l);
    }
  }

  lemma {:induction false} LineEndOfTerminated(l: string, rest: string)
    requires '\n' !in l
    ensures LineEnd(l + "\n" + rest) == |l|
  {
    if l != [] {
      assert (l + "\n" + rest)[1..] == l[1..] + "\n" + rest;
      LineEndOfTerminated(l[1..], rest);
    }
  }

  /** Splitting the written text gives back exactly the lines that were
      written, in order. */
  lemma {:induction false} LinesOfTerminated(ls: seq<string>)
    requires forall i :: 0 <= i < |ls| ==> IsLine(ls[i])
    ensures Lines(Terminated(ls)) == ls
  {
    if ls != [] {
      var s := Terminated(ls);
      var l := ls[0];
      LineEndOfTerminated(l, Terminated(ls[1..]));
      assert s[..|l|] == l;
      assert s[|l| + 1..] == Terminated(ls[1..]);
      LinesOfTerminated(ls[1..]);
    }
  }
}
