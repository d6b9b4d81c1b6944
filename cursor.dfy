/** The character cursor of lib/lexer/cursor.rs: a `Chars` iterator over the input, read
    without consuming by `PeekFirst`/`PeakSecond` (which step a clone) and advanced by `Next`.
    The iterator is modelled by the sequence of characters it has not yet produced. */
module Cursor {
  import opened Basics

  /** One step of a `Chars` iterator: the character produced and what remains. Nothing is
      lost: the produced character followed by the remainder is the sequence stepped over, and
      only an exhausted iterator produces nothing. */
  function Step(rest: seq<char>): (r: (Option<char>, seq<char>))
    ensures r.0.None? <==> rest == []
    ensures r.0.Some? ==> [r.0.value] + r.1 == rest
    ensures r.0.None? ==> r.1 == rest
  {
    if rest == [] then (None, rest) else (Some(rest[0]), rest[1..])
  }

  class Cursor {
    /** The characters the iterator has not yet produced. */
    var chars: seq<char>

    /** `Cursor::new`: the remaining sequence is the whole input. */
    constructor (input: string)
      ensures chars == input
    {
      chars := input;
    }

    /** `peek_first`: what `next` would produce, read from a clone. */
    function PeekFirst(): (r: Option<char>)
      reads this
      ensures r == if |chars| > 0 then Some(chars[0]) else None
    {
      Step(chars).0
    }

    /** `peak_second`: step a clone twice and return the second result. */
    function PeakSecond(): (r: Option<char>)
      reads this
      ensures r == if |chars| > 1 then Some(chars[1]) else None
    {
      var afterFirst := Step(chars).1;
      Step(afterFirst).0
    }

    /** `next`: produce what `PeekFirst` shows and drop exactly that character. */
    method Next() returns (r: Option<char>)
      modifies this
      ensures r == old(PeekFirst())
      ensures r.Some? ==> chars == old(chars)[1..]
      ensures r.None? ==> chars == old(chars) == []
    {
      var step := Step(chars);
      r, chars := step.0, step.1;
    }
  }

  /** A client: stepping a fresh cursor over "ab" produces 'a', 'b' and then nothing,
      while the two peeks agree with what is produced. */
  method CursorWalk()
  {
    var c := new Cursor("ab");
    assert c.PeekFirst() == Some('a') && c.PeakSecond() == Some('b');
    var x := c.Next();
    assert x == Some('a') && c.PeekFirst() == Some('b') && c.PeakSecond() == None;
    var y := c.Next();
    var z := c.Next();
    assert y == Some('b') && z == None && c.chars == [];
  }
}
