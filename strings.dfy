/** The pieces of Go's `strings` package that the level code relies on:
    building a '|'-separated text, splitting it again, and lower-casing. */
module Strings {

  const Separator: char := '|'

  /** The parts joined by single separators, built from the back as a
      strings.Builder that appends one part at a time builds it. */
  function Join(parts: seq<string>): string {
    if parts == [] then ""
    else if |parts| == 1 then parts[0]
    else Join(parts[..|parts| - 1]) + [Separator] + parts[|parts| - 1]
  }

  /** Appending one more part adds a separator unless it is the first. */
  lemma JoinStep(parts: seq<string>, part: string)
    ensures Join(parts + [part]) == if parts == [] then part else Join(parts) + [Separator] + part
  {
    assert (parts + [part])[..|parts|] == parts;
  }

  /** Joining parts, none of them empty, gives the empty text only for no parts. */
  lemma JoinEmpty(parts: seq<string>)
    requires forall k :: 0 <= k < |parts| ==> |parts[k]| > 0
    ensures |Join(parts)| == 0 <==> parts == []
  {
  }

  /** strings.Split(s, "|"): the pieces between separators, taken apart from
      the last separator backwards. */
  function Split(s: string): (parts: seq<string>)
    ensures |parts| > 0
  {
    if Separator !in s then [s]
    else
      var i := LastIndexOf(s, Separator);
      Split(s[..i]) + [s[i + 1..]]
  }

  /** A text without separators is a single part. */
  lemma SplitWhole(s: string)
    requires Separator !in s
    ensures Split(s) == [s]
  {
  }

  /** The position of the last `c` in `s`. */
  function LastIndexOf(s: string, c: char): (i: nat)
    requires c in s
    ensures i < |s| && s[i] == c && c !in s[i + 1..]
  {
    if s[|s| - 1] == c then |s| - 1 else LastIndexOf(s[..|s| - 1], c)
  }

  /** The last separator of `front + "|" + back` is the one put between them. */
  lemma {:induction false} LastSeparator(front: string, back: string)
    requires Separator !in back
    ensures LastIndexOf(front + [Separator] + back, Separator) == |front|
    decreases |back|
  {
    var s := front + [Separator] + back;
    if back != [] {
      assert s[|s| - 1] == back[|back| - 1];
      assert s[..|s| - 1] == front + [Separator] + back[..|back| - 1];
      LastSeparator(front, back[..|back| - 1]);
    }
  }

  /** Joining is undone by splitting, for parts that hold no separator. */
  lemma {:induction false} SplitJoin(parts: seq<string>)
    requires parts != []
    requires forall k :: 0 <= k < |parts| ==> Separator !in parts[k]
    ensures Split(Join(parts)) == parts
  {
    if |parts| > 1 {
      var init, last := parts[..|parts| - 1], parts[|parts| - 1];
      var front := Join(init);
      var s := front + [Separator] + last;
      assert Join(parts) == s;
      assert s[|front|] == Separator;
      LastSeparator(front, last);
      assert s[..|front|] == front && s[|front| + 1..] == last;
      assert Split(s) == Split(front) + [last];
      SplitJoin(init);
    }
  }

  /** strings.ToLower on ASCII letters; every other character is kept. No
      upper-case ASCII letter is left. */
  function ToLower(s: string): (t: string)
    ensures |t| == |s|
    ensures forall i :: 0 <= i < |t| ==> !('A' <= t[i] <= 'Z')
  {
    seq(|s|, i requires 0 <= i < |s| => LowerChar(s[i]))
  }

  function LowerChar(c: char): char {
    if 'A' <= c <= 'Z' then (c as int - 'A' as int + 'a' as int) as char else c
  }

  /** Lower-casing twice is lower-casing once. */
  lemma ToLowerIdempotent(s: string)
    ensures ToLower(ToLower(s)) == ToLower(s)
  {
  }
}
