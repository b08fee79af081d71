/** Reading a text through a fixed buffer that is refilled in chunks. Every operation is proved against the text that
    is left, so its effect does not depend on where the chunks end. */
module Streams {
  import opened Logic
  import opened Text

  const CHUNK_LIMIT: nat := 148576

  class StreamBuffer {
    const buf: array<char>
    var pos: nat
    var size: nat

    /** What the read function has not handed out yet, and how much it hands out at a time. */
    var input: string
    const chunk: nat -> nat
    var round: nat

    ghost predicate Valid()
      reads this, buf
    {
      buf.Length == CHUNK_LIMIT && pos <= size <= CHUNK_LIMIT && (pos == size ==> input == [])
    }

    /** The text that is still to be read. */
    ghost function Rest(): string
      requires Valid()
      reads this, buf
    {
      buf[pos..size] + input
    }

    constructor (text: string, chunk: nat -> nat)
      ensures Valid() && fresh(buf) && Rest() == text
    {
      buf := new char[CHUNK_LIMIT];
      pos, size, input, round := 0, 0, text, 0;
      this.chunk := chunk;
      new;
      AssureLookahead();
    }

    /** Hands out the next characters: at least one while there are any, and no more than the buffer holds. */
    method Read() returns (n: nat)
      requires buf.Length == CHUNK_LIMIT
      modifies this`input, this`round, buf
      ensures n <= CHUNK_LIMIT && old(input) == buf[..n] + input && (n == 0 ==> input == [])
    {
      n := chunk(round);
      round := round + 1;
      if n == 0 { n := 1; }
      if n > CHUNK_LIMIT { n := CHUNK_LIMIT; }
      if n > |input| { n := |input|; }
      for i := 0 to n
        invariant input == old(input) && buf[..i] == input[..i]
      {
        buf[i] := input[i];
      }
      input := input[n..];
    }

    method AssureLookahead()
      requires buf.Length == CHUNK_LIMIT && size <= CHUNK_LIMIT && pos <= size + 1
      requires pos == size + 1 ==> input == []
      modifies this`pos, this`size, this`input, this`round, buf
      ensures Valid() && Rest() == if old(pos) > old(size) then [] else old(buf[pos..size] + input)
    {
      if pos >= size {
        pos := 0;
        size := Read();
      }
    }

    /** The next character; None at the end of the file. */
    method Value() returns (c: Option<char>)
      requires Valid()
      ensures c == Peek(Rest())
    {
      c := if pos >= size then None else Some(buf[pos]);
    }

    method Advance()
      requires Valid()
      modifies this`pos, this`size, this`input, this`round, buf
      ensures Valid() && Rest() == Tail(old(Rest()))
    {
      ghost var rest := Rest();
      assert pos < size ==> rest[1..] == buf[pos + 1..size] + input;
      pos := pos + 1;
      AssureLookahead();
    }

    method SkipWhitespace()
      requires Valid()
      modifies this`pos, this`size, this`input, this`round, buf
      ensures Valid() && Rest() == SkipSpace(old(Rest()))
    {
      var c := Value();
      while c.Some? && IsSpace(c.value)
        invariant Valid() && SkipSpace(Rest()) == SkipSpace(old(Rest())) && c == Peek(Rest())
        decreases |Rest()|
      {
        Advance();
        c := Value();
      }
    }

    method SkipToNextLine()
      requires Valid()
      modifies this`pos, this`size, this`input, this`round, buf
      ensures Valid() && Rest() == SkipLine(old(Rest()))
    {
      var c := Value();
      while c.Some? && c.value != '\0' && c.value != '\n'
        invariant Valid() && SkipLine(Rest()) == SkipLine(old(Rest())) && c == Peek(Rest())
        decreases |Rest()|
      {
        Advance();
        c := Value();
      }
      if c == Some('\n') { Advance(); }
    }

    method SkipEOL() returns (ok: bool)
      requires Valid()
      modifies this`pos, this`size, this`input, this`round, buf
      ensures Valid() && ok == SkipEol(old(Rest())).Got? && (ok ==> Rest() == SkipEol(old(Rest())).rest)
    {
      var c := Value();
      while c == Some('\r')
        invariant Valid() && SkipEol(Rest()) == SkipEol(old(Rest())) && c == Peek(Rest())
        decreases |Rest()|
      {
        Advance();
        c := Value();
      }
      ok := c.None? || c.value == '\0' || c.value == '\n';
      if c == Some('\n') { Advance(); }
    }

    method ReadInt() returns (ok: bool, ret: int)
      requires Valid()
      modifies this`pos, this`size, this`input, this`round, buf
      ensures Valid() && ok == ParseInt(old(Rest())).Got?
      ensures ok ==> ParseInt(old(Rest())) == Got(ret, Rest())
    {
      hide Digits, SkipSpace;
      var mult: int := 1;
      ok, ret := false, 0;
      SkipWhitespace();
      var c := Value();
      if c == Some('-') {
        mult := -1;
        Advance();
      } else if c == Some('+') {
        Advance();
      }
      c := Value();
      if c.None? || !IsDigit(c.value) { return; }
      var val;
      ok, val := ReadDigits();
      ret := mult * val;
    }

    /** The digits up to the next other character, as long as their value fits. */
    method ReadDigits() returns (ok: bool, val: nat)
      requires Valid()
      modifies this`pos, this`size, this`input, this`round, buf
      ensures Valid() && ok == Digits(old(Rest()), 0).Got?
      ensures ok ==> Digits(old(Rest()), 0) == Got(val, Rest())
    {
      ok, val := true, 0;
      var c := Value();
      while c.Some? && IsDigit(c.value)
        invariant Valid() && Digits(Rest(), val) == Digits(old(Rest()), 0) && c == Peek(Rest())
        decreases |Rest()|
      {
        var val2 := val * 10 + (c.value as int - '0' as int);
        if val2 > INT_MAX { ok := false; return; }
        val := val2;
        Advance();
        c := Value();
      }
    }

    method ReadString() returns (str: string)
      requires Valid()
      modifies this`pos, this`size, this`input, this`round, buf
      ensures Valid() && ParseString(old(Rest())) == (str, Rest())
    {
      str := "";
      SkipWhitespace();
      ghost var start := Rest();
      var c := Value();
      while c.Some? && c.value != ' ' && c.value != '\n'
        invariant Valid() && start == str + Rest() && c == Peek(Rest())
        invariant forall i :: 0 <= i < |str| ==> str[i] != ' ' && str[i] != '\n'
        decreases |Rest()|
      {
        ghost var before := Rest();
        assert before == [c.value] + Tail(before);
        str := str + [c.value];
        Advance();
        c := Value();
      }
      WordPrinted(str, Rest());
    }
  }

  function Peek(s: string): Option<char> { if s == [] then None else Some(s[0]) }

  function Tail(s: string): string { if s == [] then [] else s[1..] }
}
