/** The decoded price-list response as a character stream with a read cursor,
    shared by the metadata reader and the row reader that follows it. */
module Stream {

  class CharStream {
    const text: string
    var pos: nat

    ghost predicate Valid()
      reads this
    {
      pos <= |text|
    }

    constructor (text: string)
      ensures Valid() && this.text == text && pos == 0
    {
      this.text := text;
      pos := 0;
    }

    /** read(1): the next character, or the empty string once the stream is
        exhausted (and then on every later call). */
    method Read1() returns (c: string)
      requires Valid()
      modifies this
      ensures Valid()
      ensures old(pos) < |text| ==> c == [text[old(pos)]] && pos == old(pos) + 1
      ensures old(pos) == |text| ==> c == "" && pos == old(pos)
    {
      if pos < |text| {
        c := [text[pos]];
        pos := pos + 1;
      } else {
        c := "";
      }
    }

    /** Everything left in the stream, which iterating a csv reader over it
        consumes. */
    method ReadRest() returns (rest: string)
      requires Valid()
      modifies this
      ensures Valid() && rest == old(text[pos..]) && pos == |text|
    {
      rest := text[pos..];
      pos := |text|;
    }
  }
}
