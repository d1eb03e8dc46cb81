/** The C library's in-place scanning of a text buffer, as `hk_deserialize` uses it.

    `rest` is the text from a position up to its terminating NUL. */
module TextScan {
  import opened HeapText

  /** The text is made of bytes. */
  predicate Narrow(s: string) {
    forall k :: 0 <= k < |s| ==> s[k] as int < 256
  }

  /** The buffer holds `rest` and its NUL from position `from` on. */
  ghost predicate Holds(buf: array<char>, from: int, rest: string)
    reads buf
  {
    && 0 <= from && from + |rest| < buf.Length
    && (forall k :: 0 <= k < |rest| ==> buf[from + k] == rest[k])
    && buf[from + |rest|] == NUL
    && NUL !in rest
  }

  lemma IndexOfIs(s: string, c: char, n: nat)
    requires n <= |s| && c !in s[..n] && (n < |s| ==> s[n] == c)
    ensures IndexOf(s, c) == n
  {
  }

  /** The position of the next character that is not a separator, and the text from there. */
  method SkipSeparators(buf: array<char>, from: nat, ghost rest: string)
    returns (start: nat, ghost text: string)
    requires Holds(buf, from, rest)
    ensures from <= start && Holds(buf, start, text)
    ensures text != [] ==> text[0] != ';'
    ensures Tokens(text) == Tokens(rest)
    ensures start - from <= |rest| && text == rest[start - from..]
  {
    text := rest;
    start := from;
    while buf[start] == ';'
      invariant from <= start && Holds(buf, start, text)
      invariant Tokens(text) == Tokens(rest)
      invariant start - from <= |rest| && text == rest[start - from..]
      decreases |text|
    {
      text := text[1..];
      start := start + 1;
    }
  }

  /** The end of the token that starts at `start`. */
  method TokenEnd(buf: array<char>, start: nat, ghost text: string) returns (end: nat)
    requires Holds(buf, start, text)
    ensures end == start + IndexOf(text, ';')
  {
    end := start;
    while buf[end] != ';' && buf[end] != NUL
      invariant start <= end <= start + |text|
      invariant ';' !in text[..end - start]
      decreases start + |text| - end
    {
      assert text[end - start] == buf[end];
      assert text[..end + 1 - start] == text[..end - start] + [text[end - start]];
      end := end + 1;
    }
    assert end < start + |text| ==> text[end - start] == buf[end];
    IndexOfIs(text, ';', end - start);
  }

  lemma TokenParts(text: string)
    requires text != [] && text[0] != ';'
    ensures var n := IndexOf(text, ';');
            && 0 < n
            && Tokens(text) == [text[..n]] + Tokens(text[n..])
            && (n < |text| ==> Tokens(text[n..]) == Tokens(text[n + 1..]))
  {
  }

  /** Cuts the token that starts at `start` off the text behind it. */
  method Terminate(buf: array<char>, start: nat, end: nat, ghost text: string)
    returns (next: nat, ghost rest': string)
    requires Holds(buf, start, text) && text != [] && text[0] != ';'
    requires end == start + IndexOf(text, ';')
    modifies buf
    ensures start < end <= next && next - start <= |text|
    ensures Holds(buf, start, text[..end - start])
    ensures rest' == text[next - start..] && Holds(buf, next, rest')
    ensures Tokens(text) == [text[..end - start]] + Tokens(rest')
  {
    TokenParts(text);
    ghost var n := end - start;
    assert n < |text| ==> text[n] == buf[end];
    next := end;
    if buf[end] == ';' {
      next := end + 1;
      buf[end] := NUL;
    }
    rest' := text[next - start..];
  }

  /** `strtok(..., ";")`: skips separators, ends the next token with a NUL written over its
      separator, and remembers where to go on.  `start == end` when there is no token left. */
  method StrTok(buf: array<char>, from: nat, ghost rest: string)
    returns (start: nat, end: nat, next: nat, ghost token: string, ghost rest': string)
    requires Holds(buf, from, rest)
    modifies buf
    ensures start == end ==> Tokens(rest) == []
    ensures start != end ==>
              && from <= start < end <= next && next - from <= |rest|
              && token == rest[start - from..end - from] && Holds(buf, start, token)
              && rest' == rest[next - from..] && Holds(buf, next, rest')
              && Tokens(rest) == [token] + Tokens(rest')
  {
    ghost var text;
    start, text := SkipSeparators(buf, from, rest);
    end := TokenEnd(buf, start, text);
    next, token, rest' := end, [], [];
    if start != end {
      next, rest' := Terminate(buf, start, end, text);
      token := text[..end - start];
    }
  }

  /** `strchr`: the position of the first `c` in the C string at `start`, or of its NUL. */
  method StrChr(buf: array<char>, start: nat, c: char, ghost text: string) returns (at: nat)
    requires Holds(buf, start, text) && c != NUL
    ensures at == start + IndexOf(text, c)
  {
    at := start;
    while buf[at] != c && buf[at] != NUL
      invariant start <= at <= start + |text|
      invariant c !in text[..at - start]
      decreases start + |text| - at
    {
      assert text[at - start] == buf[at];
      assert text[..at + 1 - start] == text[..at - start] + [text[at - start]];
      at := at + 1;
    }
    assert at < start + |text| ==> text[at - start] == buf[at];
    IndexOfIs(text, c, at - start);
  }
}
