/** The source-code tokenizer: a stream that hands out one token per call, deciding where a token ends
    only when it has seen the character after next.

    `Split` says where the tokens are by looking at the whole text. */
module CodeTokenizer {
  import opened Options
  import opened TokenText

  datatype CharType = UpperCase | LowerCase | Numeric | Delimiter

  function GetCharType(c: CodePoint): CharType {
    if c.alphabetic then (if c.uppercase then UpperCase else LowerCase)
    else if c.numeric then Numeric
    else Delimiter
  }

  function Type(text: Text, i: nat): CharType
    requires i < |text|
  {
    GetCharType(text[i])
  }

  // ---------- Where the tokens are ----------

  /** The types differ, and it is not an upper case letter followed by a lower case one. */
  predicate TypeChange(text: Text, i: nat)
    requires 0 < i < |text|
  {
    Type(text, i - 1) != Type(text, i) && !(Type(text, i - 1) == UpperCase && Type(text, i) == LowerCase)
  }

  /** Between two letters or digits: a token starts at `i` on a change of type, or if `i` is an upper
      case letter with an upper case letter before it and a lower case one after it. */
  predicate Break(text: Text, i: nat)
    requires 0 < i < |text|
  {
    || TypeChange(text, i)
    || (Type(text, i - 1) == UpperCase && Type(text, i) == UpperCase && i + 1 < |text| && Type(text, i + 1) == LowerCase)
  }

  predicate EndsAt(text: Text, i: nat)
    requires 0 < i <= |text|
  {
    i == |text| || Type(text, i) == Delimiter || Break(text, i)
  }

  function TokenEnd(text: Text, i: nat): (j: nat)
    requires i < |text|
    ensures i < j <= |text|
    decreases |text| - i
  {
    if EndsAt(text, i + 1) then i + 1 else TokenEnd(text, i + 1)
  }

  /** The tokens from character `i` on, as ranges of characters. */
  function Split(text: Text, i: nat): seq<Range>
    requires i <= |text|
    decreases |text| - i
  {
    if i == |text| then []
    else if Type(text, i) == Delimiter then Split(text, i + 1)
    else [Range(i, TokenEnd(text, i))] + Split(text, TokenEnd(text, i))
  }

  ghost predicate IsToken(text: Text, r: Range) {
    && r.from < r.to <= |text|
    && (forall i :: r.from <= i < r.to ==> Type(text, i) != Delimiter)
    && (forall i :: r.from < i < r.to ==> !Break(text, i))
    && EndsAt(text, r.to)
  }

  lemma {:induction false} TokenEndFacts(text: Text, i: nat)
    requires i < |text| && Type(text, i) != Delimiter
    ensures IsToken(text, Range(i, TokenEnd(text, i)))
    decreases |text| - i
  {
    if !EndsAt(text, i + 1) {
      TokenEndFacts(text, i + 1);
    }
  }

  /** The tokens are non-empty, break nowhere inside, hold no delimiter, and are in order. */
  lemma {:induction false} SplitIsOrdered(text: Text, i: nat)
    requires i <= |text|
    ensures forall k :: 0 <= k < |Split(text, i)| ==> i <= Split(text, i)[k].from && IsToken(text, Split(text, i)[k])
    ensures forall k, l :: 0 <= k < l < |Split(text, i)| ==> Split(text, i)[k].to <= Split(text, i)[l].from
    decreases |text| - i
  {
    if i == |text| {
    } else if Type(text, i) == Delimiter {
      SplitIsOrdered(text, i + 1);
    } else {
      var e := TokenEnd(text, i);
      var ts, rest := Split(text, i), Split(text, e);
      TokenEndFacts(text, i);
      SplitIsOrdered(text, e);
      forall k | 0 <= k < |ts|
        ensures i <= ts[k].from && IsToken(text, ts[k])
      {
        if 0 < k {
          assert ts[k] == rest[k - 1];
        }
      }
      forall k, l | 0 <= k < l < |ts|
        ensures ts[k].to <= ts[l].from
      {
        assert ts[l] == rest[l - 1];
        if 0 < k {
          assert ts[k] == rest[k - 1];
        }
      }
    }
  }

  /** Every letter and every digit is in a token, and nothing else is. */
  lemma {:induction false} SplitCovers(text: Text, i: nat, c: nat)
    requires i <= c < |text|
    ensures Covered(Split(text, i), c) <==> text[c].alphabetic || text[c].numeric
    decreases |text| - i
  {
    var ts := Split(text, i);
    if Type(text, c) == Delimiter {
      SplitIsOrdered(text, i);
    } else if Type(text, i) == Delimiter {
      SplitCovers(text, i + 1, c);
    } else {
      var e := TokenEnd(text, i);
      if c < e {
        assert Inside(ts[0], c);
      } else {
        SplitCovers(text, e, c);
        var k :| 0 <= k < |Split(text, e)| && Inside(Split(text, e)[k], c);
        assert Inside(ts[k + 1], c);
      }
    }
  }

  /** Two neighbours that belong together: two digits, or two letters unless the second starts a word. It
      does if it is upper case and either the first is not, or a letter that is not upper case follows. */
  ghost predicate Joined(text: Text, i: nat)
    requires 0 < i < |text|
  {
    var a, b := text[i - 1], text[i];
    || (!a.alphabetic && a.numeric && !b.alphabetic && b.numeric)
    || (&& a.alphabetic && b.alphabetic
        && (b.uppercase ==>
              a.uppercase && (i + 1 < |text| && text[i + 1].alphabetic ==> text[i + 1].uppercase)))
  }

  lemma JoinedIff(text: Text, i: nat)
    requires 0 < i < |text| && Type(text, i - 1) != Delimiter
    ensures Joined(text, i) <==> !EndsAt(text, i)
  {
  }

  lemma NoneAcross(text: Text, s: nat)
    requires s <= |text|
    ensures !SameToken(Split(text, s), s)
  {
    SplitIsOrdered(text, s);
  }

  /** A token goes on from one character to the next exactly if the two belong together. With
      `SplitCovers`, this says where all tokens begin and end. */
  lemma {:induction false} TokensJoin(text: Text, s: nat, i: nat)
    requires s < i < |text|
    ensures SameToken(Split(text, s), i) <==> Joined(text, i)
    decreases |text| - s
  {
    if Type(text, s) == Delimiter {
      if s + 1 < i {
        TokensJoin(text, s + 1, i);
      } else {
        NoneAcross(text, i);
      }
    } else {
      var e := TokenEnd(text, s);
      TokenEndFacts(text, s);
      SameTokenMore(Range(s, e), Split(text, e), i);
      if i < e {
        JoinedIff(text, i);
      } else if i == e {
        JoinedIff(text, i);
        NoneAcross(text, i);
      } else {
        TokensJoin(text, e, i);
      }
    }
  }

  // ---------- The stream ----------

  datatype State =
    | Empty
    | Processing(isFirstChar: bool, startOffset: nat, currentOffset: nat, currentWidth: nat, currentType: CharType)

  /** One more character: the new state, and the token that has just ended, if any. */
  method AdvanceState(state: State, nextOffset: nat, next: CodePoint) returns (state': State, r: Option<Range>)
    ensures (state', r) == NextState(state, nextOffset, next)
  {
    var nextType := GetCharType(next);
    match state {
      case Empty =>
        r := None;
        if nextType == Delimiter {
          state' := Empty;
        } else {
          state' := Processing(true, nextOffset, nextOffset, next.width, nextType);
        }
      case Processing(isFirstChar, startOffset, currentOffset, currentWidth, currentType) =>
        if nextType == Delimiter {
          r := Some(Range(startOffset, currentOffset + currentWidth));
          state' := Empty;
        } else if currentType == UpperCase && nextType == LowerCase {
          if isFirstChar {
            r := None;
            state' := Processing(false, startOffset, nextOffset, next.width, nextType);
          } else {
            r := Some(Range(startOffset, currentOffset));
            state' := Processing(false, currentOffset, nextOffset, next.width, nextType);
          }
        } else if currentType == nextType {
          r := None;
          state' := Processing(false, startOffset, nextOffset, next.width, currentType);
        } else {
          r := Some(Range(startOffset, currentOffset + currentWidth));
          state' := Processing(true, nextOffset, nextOffset, next.width, nextType);
        }
    }
  }

  function NextState(state: State, offset: nat, next: CodePoint): (State, Option<Range>) {
    var t := GetCharType(next);
    if state.Empty? then (if t == Delimiter then Empty else Processing(true, offset, offset, next.width, t), None)
    else if t == Delimiter then (Empty, Some(Range(state.startOffset, state.currentOffset + state.currentWidth)))
    else if state.currentType == t || (state.currentType == UpperCase && t == LowerCase && state.isFirstChar) then
      (Processing(false, state.startOffset, offset, next.width, t), None)
    else if state.currentType == UpperCase && t == LowerCase then
      (Processing(false, state.currentOffset, offset, next.width, t), Some(Range(state.startOffset, state.currentOffset)))
    else
      (Processing(true, offset, offset, next.width, t), Some(Range(state.startOffset, state.currentOffset + state.currentWidth)))
  }

  /** After `pos` characters the state describes a token that started at character `start` and has
      not ended for certain: no break lies inside it, except perhaps one before its last character. */
  ghost predicate Describes(state: State, text: Text, start: nat, pos: nat) {
    && start <= pos <= |text|
    && (state.Empty? ==> start == pos)
    && (state.Processing? ==>
          && start < pos
          && (forall i :: start <= i < pos ==> Type(text, i) != Delimiter)
          && (forall i :: start < i < pos - 1 ==> !Break(text, i))
          && (start < pos - 1 ==> !TypeChange(text, pos - 1))
          && state == Processing(start == pos - 1, Offset(text, start), Offset(text, pos - 1), text[pos - 1].width, Type(text, pos - 1)))
  }

  lemma {:induction false} NoBreakNoEnd(text: Text, start: nat, end: nat)
    requires start < end <= |text|
    requires forall i :: start < i < end ==> Type(text, i) != Delimiter && !Break(text, i)
    requires EndsAt(text, end)
    ensures TokenEnd(text, start) == end
    decreases end - start
  {
    if start + 1 < end {
      NoBreakNoEnd(text, start + 1, end);
    }
  }

  /** One step keeps the description: either no token ended, or the ended token is the next of the
      split, and the description goes on where it ended. */
  lemma StepDescribes(state: State, text: Text, start: nat, pos: nat) returns (start': nat)
    requires Describes(state, text, start, pos) && pos < |text|
    ensures var (state', r) := NextState(state, Offset(text, pos), text[pos]);
            && Describes(state', text, start', pos + 1)
            && Split(text, start) ==
               match r
               case None => Split(text, start')
               case Some(bytes) => [Range(start, TokenEnd(text, start))] + Split(text, start')
    ensures var (_, r) := NextState(state, Offset(text, pos), text[pos]);
            r.Some? ==> start < |text| && r.value == Bytes(text, Range(start, TokenEnd(text, start)))
  {
    var (state', r) := NextState(state, Offset(text, pos), text[pos]);
    assert Offset(text, pos + 1) == Offset(text, pos) + text[pos].width;
    if state.Empty? {
      start' := if Type(text, pos) == Delimiter then pos + 1 else pos;
    } else if r.None? {
      start' := start;
    } else if Type(text, pos) == Delimiter {
      NoBreakNoEnd(text, start, pos);
      start' := pos + 1;
    } else if Type(text, pos - 1) == UpperCase && Type(text, pos) == LowerCase {
      NoBreakNoEnd(text, start, pos - 1);
      start' := pos - 1;
    } else {
      NoBreakNoEnd(text, start, pos);
      start' := pos;
    }
  }

  /** At the end of the text, what is left in the state is the last token of the split. */
  lemma LastToken(state: State, text: Text, start: nat)
    requires Describes(state, text, start, |text|)
    ensures state.Empty? ==> Split(text, start) == []
    ensures state.Processing? ==>
              && Split(text, start) == [Range(start, |text|)]
              && Bytes(text, Range(start, |text|)) == Range(state.startOffset, state.currentOffset + state.currentWidth)
  {
    if state.Processing? {
      NoBreakNoEnd(text, start, |text|);
    }
  }

  /** The token stream over a text: `pending` is what it has still to hand out. */
  class CodeTokenStream {
    const text: Text
    var pos: nat
    var state: State
    var token: Token
    ghost var start: nat
    ghost var pending: seq<Range>

    ghost predicate Valid()
      reads this
    {
      WellFormed(text) && Describes(state, text, start, pos) && pending == Split(text, start)
    }

    constructor (text: Text)
      requires WellFormed(text)
      ensures Valid() && this.text == text && pending == Split(text, 0) && token == Token(USIZE - 1, Range(0, 0), [])
    {
      this.text, pos, state, start, pending := text, 0, Empty, 0, Split(text, 0);
      token := Token(USIZE - 1, Range(0, 0), []);
    }

    /** Hands out the next token of the split, or nothing when there is none left. */
    method Advance() returns (found: bool)
      requires Valid()
      modifies this
      ensures Valid()
      ensures token.position == PositionAfter(old(token.position), 1)
      ensures found <==> old(pending) != []
      ensures found ==> pending == old(pending)[1..] && token.Shows(text, old(pending)[0])
      ensures !found ==> pending == [] && token.text == []
    {
      token := token.(position := PositionAfter(token.position, 1), text := []);
      while pos < |text|
        invariant Valid() && pending == old(pending)
        invariant token.text == [] && token.position == PositionAfter(old(token.position), 1)
      {
        var r, chars := TakeChar();
        if r.Some? {
          token := CutToken(text, chars, r.value, token.position);
          return true;
        }
      }
      var r, chars := Finalize();
      if r.Some? {
        token := CutToken(text, chars, r.value, token.position);
        return true;
      }
      return false;
    }

    /** Takes one character. If that ends a token, it is the first of the pending ones. */
    method TakeChar() returns (r: Option<Range>, ghost chars: Range)
      requires Valid() && pos < |text|
      modifies `pos, `state, `start, `pending
      ensures Valid() && pos == old(pos) + 1
      ensures r.None? ==> pending == old(pending)
      ensures r.Some? ==> [chars] + pending == old(pending) && chars.from <= chars.to <= |text| && r.value == Bytes(text, chars)
    {
      ghost var next := StepDescribes(state, text, start, pos);
      chars := Range(start, if start < |text| then TokenEnd(text, start) else start);
      state, r := AdvanceState(state, Offset(text, pos), text[pos]);
      pos, start, pending := pos + 1, next, Split(text, next);
    }

    /** At the end of the text, the token in the making is the last one. */
    method Finalize() returns (r: Option<Range>, ghost chars: Range)
      requires Valid() && pos == |text|
      modifies `state, `start, `pending
      ensures Valid() && pending == []
      ensures r.None? ==> old(pending) == []
      ensures r.Some? ==> old(pending) == [chars] && chars.from <= chars.to <= |text| && r.value == Bytes(text, chars)
    {
      LastToken(state, text, start);
      chars := Range(start, |text|);
      match state {
        case Empty =>
          r := None;
        case Processing(_, startOffset, currentOffset, currentWidth, _) =>
          r := Some(Range(startOffset, currentOffset + currentWidth));
          state, start, pending := Empty, pos, [];
      }
    }
  }

  /** Asking for tokens until there are none gives all that were pending. */
  method Drain(stream: CodeTokenStream) returns (tokens: seq<Token>)
    requires stream.Valid()
    modifies stream
    ensures AllShown(tokens, stream.text, old(stream.pending), old(stream.token.position))
    decreases |stream.pending|
  {
    var found := stream.Advance();
    if !found {
      return [];
    }
    var first := stream.token;
    var rest := Drain(stream);
    FirstShown(first, rest, stream.text, old(stream.pending), old(stream.token.position));
    return [first] + rest;
  }

  method Tokenize(text: Text) returns (tokens: seq<Token>)
    requires WellFormed(text)
    ensures |tokens| == |Split(text, 0)|
    ensures forall k :: 0 <= k < |tokens| ==> tokens[k].Shows(text, Split(text, 0)[k])
    ensures forall k :: 0 <= k < |tokens| ==> tokens[k].position == k % USIZE
  {
    var stream := new CodeTokenStream(text);
    tokens := Drain(stream);
  }
}
