/**
 * Line-oriented text as the tool reads and writes it.  `Text` is what is
 * written when every line is followed by one "\n"; `Lines` is what Rust's
 * `BufRead::lines` yields when reading a text back: pieces split at "\n",
 * with one "\r" removed from a piece only when a "\n" ended it.
 */
module LineText {

  /** The text of the lines, each followed by "\n": ending in "\n" unless there are no lines. */
  function Text(ls: seq<string>): (t: string)
    ensures ls != [] ==> |t| > 0 && t[|t| - 1] == '\n'
  {
    if ls == [] then "" else ls[0] + "\n" + Text(ls[1..])
  }

  /** The index of the first "\n" in `t`, or `|t|` when there is none. */
  function LineEnd(t: string): (k: nat)
    ensures k <= |t|
    ensures forall j :: 0 <= j < k ==> t[j] != '\n'
    ensures k < |t| ==> t[k] == '\n'
  {
    if t == [] || t[0] == '\n' then 0 else 1 + LineEnd(t[1..])
  }

  predicate EndsInCr(l: string) {
    |l| > 0 && l[|l| - 1] == '\r'
  }

  function StripCr(l: string): string {
    if EndsInCr(l) then l[..|l| - 1] else l
  }

  function Lines(t: string): (ls: seq<string>)
    ensures forall l <- ls :: '\n' !in l
    decreases |t|
  {
    if t == [] then []
    else
      var k := LineEnd(t);
      if k == |t| then [t]
      else [StripCr(t[..k])] + Lines(t[k + 1..])
  }

  /** A line that survives being written and read back unchanged. */
  predicate PlainLine(l: string) {
    '\n' !in l && !EndsInCr(l)
  }

  lemma {:induction false} TextAppend(a: seq<string>, b: seq<string>)
    ensures Text(a + b) == Text(a) + Text(b)
  {
    if a == [] {
      assert a + b == b;
    } else {
      assert (a + b)[1..] == a[1..] + b;
      TextAppend(a[1..], b);
    }
  }

  /** The first line of `l + "\n" + rest` ends right after `l`. */
  lemma {:induction false} LineEndAfter(l: string, rest: string)
    requires '\n' !in l
    ensures LineEnd(l + "\n" + rest) == |l|
  {
    var t := l + "\n" + rest;
    if l != [] {
      assert t[0] == l[0] && l[0] in l;
      assert t[1..] == l[1..] + "\n" + rest;
      assert forall c <- l[1..] :: c in l;
      LineEndAfter(l[1..], rest);
    }
  }

  /** Every line with one trailing "\r" removed. */
  function StripAll(ls: seq<string>): seq<string> {
    if ls == [] then [] else [StripCr(ls[0])] + StripAll(ls[1..])
  }

  /**
   * Reading back what was written gives the same lines, each with one
   * trailing "\r" removed, when no line contains "\n".
   */
  lemma {:induction false} LinesOfTextStripped(ls: seq<string>)
    requires forall l <- ls :: '\n' !in l
    ensures Lines(Text(ls)) == StripAll(ls)
  {
    if ls != [] {
      var l, rest := ls[0], Text(ls[1..]);
      assert '\n' !in l by { assert l in ls; }
      assert forall x <- ls[1..] :: x in ls;
      var t := l + "\n" + rest;
      assert Text(ls) == t;
      LineEndAfter(l, rest);
      assert t[..|l|] == l;
      assert t[|l| + 1..] == rest;
      LinesOfTextStripped(ls[1..]);
      assert Lines(t) == [StripCr(l)] + Lines(rest);
    }
  }

  /** Reading back what was written gives the same lines, for plain lines. */
  lemma {:induction false} LinesOfText(ls: seq<string>)
    requires forall l <- ls :: PlainLine(l)
    ensures Lines(Text(ls)) == ls
  {
    if ls != [] {
      var l, rest := ls[0], Text(ls[1..]);
      assert PlainLine(l) by { assert l in ls; }
      var t := l + "\n" + rest;
      assert Text(ls) == t;
      LineEndAfter(l, rest);
      assert t[..|l|] == l;
      assert t[|l| + 1..] == rest;
      LinesOfText(ls[1..]);
      assert Lines(t) == [StripCr(l)] + Lines(rest);
    }
  }
}
