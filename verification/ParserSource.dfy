/** The input stream of easy_parser (restinio/helpers/easy_parser.hpp). */
module ParserSource {
  import opened Wrappers

  datatype Reason =
    | UnexpectedCharacter
    | UnexpectedEof
    | NoAppropriateAlternative
    | PatternNotFound
    | UnconsumedInput
    | IllegalValueFound
    | ForceOnlyThisAlternativeFailed

  datatype ParseError = ParseError(position: nat, reason: Reason)

  class Source {
    const data: string
    var index: nat

    ghost predicate Valid()
      reads this
    {
      index <= |data|
    }

    constructor (data: string)
      ensures this.data == data && index == 0 && Valid()
    {
      this.data, index := data, 0;
    }

    method GetCh() returns (ch: Option<char>)
      requires Valid()
      modifies this
      ensures Valid()
      ensures old(index) < |data| ==> ch == Some(data[old(index)]) && index == old(index) + 1
      ensures old(index) == |data| ==> ch == None && index == old(index)
    {
      if index < |data| {
        ch := Some(data[index]);
        index := index + 1;
      } else {
        ch := None;
      }
    }

    method PutBack()
      requires Valid()
      modifies this
      ensures Valid() && index == if old(index) == 0 then 0 else old(index) - 1
    {
      if index != 0 {
        index := index - 1;
      }
    }

    method BackTo(pos: nat)
      requires Valid()
      modifies this
      ensures Valid() && index == if pos <= |data| then pos else old(index)
    {
      if pos <= |data| {
        index := pos;
      }
    }

    predicate Eof()
      reads this
    {
      index >= |data|
    }
  }
}
