/** The tokenizer for texts with Chinese, Japanese or Korean characters: each of those is a token, and so
    is each longest run of other letters and digits. To find the end of a run it must read one
    character too many, which it keeps for the next call. */
module CjkTokenizer {
  import opened Options
  import opened TokenText

  predicate IsCjk(c: CodePoint) {
    || 0x4500 <= c.scalar <= 0x9FFF
    || 0x3400 <= c.scalar <= 0x4DBF
    || 0x20000 <= c.scalar <= 0x2A6DF
    || 0x2A700 <= c.scalar <= 0x2CEAF
  }

  datatype Grouping = Keep | SplitKeep | SplitIgnore

  function GroupingOf(c: CodePoint): Grouping {
    if c.alphabetic || c.numeric then (if IsCjk(c) then SplitKeep else Keep) else SplitIgnore
  }

  // ---------- Where the tokens are ----------

  /** The first character from `i` on that is not part of a run. */
  function RunEnd(text: Text, i: nat): (j: nat)
    requires i <= |text|
    ensures i <= j <= |text|
    ensures forall k :: i <= k < j ==> GroupingOf(text[k]) == Keep
    ensures j < |text| ==> GroupingOf(text[j]) != Keep
    decreases |text| - i
  {
    if i == |text| || GroupingOf(text[i]) != Keep then i else RunEnd(text, i + 1)
  }

  /** The tokens from character `i` on, as ranges of characters. */
  function Split(text: Text, i: nat): seq<Range>
    requires i <= |text|
    decreases |text| - i
  {
    if i == |text| then []
    else
      match GroupingOf(text[i])
      case SplitIgnore => Split(text, i + 1)
      case SplitKeep => [Range(i, i + 1)] + Split(text, i + 1)
      case Keep => [Range(i, RunEnd(text, i + 1))] + Split(text, RunEnd(text, i + 1))
  }

  /** A single character, or a run that cannot be made longer at its end. */
  ghost predicate IsToken(text: Text, r: Range) {
    && r.from < r.to <= |text|
    && match GroupingOf(text[r.from])
       case SplitIgnore => false
       case SplitKeep => r.to == r.from + 1
       case Keep =>
         && (forall k :: r.from <= k < r.to ==> GroupingOf(text[k]) == Keep)
         && (r.to < |text| ==> GroupingOf(text[r.to]) != Keep)
  }

  /** The tokens are in order, and a run cannot be made longer at its start either. */
  lemma {:induction false} SplitIsOrdered(text: Text, i: nat, k: nat, l: nat)
    requires i <= |text| && k < |Split(text, i)|
    ensures i <= Split(text, i)[k].from && IsToken(text, Split(text, i)[k])
    ensures k < l < |Split(text, i)| ==> Split(text, i)[k].to <= Split(text, i)[l].from
    ensures var from := Split(text, i)[k].from;
            from == i || GroupingOf(text[from]) == SplitKeep || GroupingOf(text[from - 1]) != Keep
    decreases |text| - i
  {
    var ts := Split(text, i);
    match GroupingOf(text[i])
    case SplitIgnore => SplitIsOrdered(text, i + 1, k, l);
    case _ =>
      var e := ts[0].to;
      assert ts[1..] == Split(text, e);
      if 0 < k {
        SplitIsOrdered(text, e, k - 1, if 0 < l then l - 1 else 0);
      } else if 0 < l < |ts| {
        SplitIsOrdered(text, e, l - 1, l - 1);
      }
  }

  /** Every letter and every digit is in a token, and nothing else is. */
  lemma {:induction false} SplitCovers(text: Text, i: nat, c: nat)
    requires i <= c < |text|
    ensures Covered(Split(text, i), c) <==> text[c].alphabetic || text[c].numeric
    decreases |text| - i
  {
    var ts := Split(text, i);
    if GroupingOf(text[c]) == SplitIgnore {
      forall k | 0 <= k < |ts|
        ensures !Inside(ts[k], c)
      {
        SplitIsOrdered(text, i, k, k);
      }
    } else if GroupingOf(text[i]) == SplitIgnore {
      SplitCovers(text, i + 1, c);
    } else {
      var e := ts[0].to;
      if c < e {
        assert Inside(ts[0], c);
      } else {
        assert ts[1..] == Split(text, e);
        SplitCovers(text, e, c);
        var k :| 0 <= k < |Split(text, e)| && Inside(Split(text, e)[k], c);
        assert ts[k + 1] == Split(text, e)[k];
      }
    }
  }

  /** A letter or digit that is not an ideograph. The first two of the four ranges of ideographs
      overlap. */
  ghost predicate InRun(c: CodePoint) {
    && (c.alphabetic || c.numeric)
    && !(0x3400 <= c.scalar < 0xA000) && !(0x20000 <= c.scalar < 0x2A6E0) && !(0x2A700 <= c.scalar < 0x2CEB0)
  }

  lemma NoneAcross(text: Text, s: nat)
    requires s <= |text|
    ensures !SameToken(Split(text, s), s)
  {
    forall k | 0 <= k < |Split(text, s)|
      ensures s <= Split(text, s)[k].from
    {
      SplitIsOrdered(text, s, k, k);
    }
  }

  /** A token goes on from one character to the next exactly if neither is an ideograph or ignored. With
      `SplitCovers`, this says where all tokens begin and end. */
  lemma {:induction false} TokensJoin(text: Text, s: nat, i: nat)
    requires s < i < |text|
    ensures SameToken(Split(text, s), i) <==> InRun(text[i - 1]) && InRun(text[i])
    decreases |text| - s
  {
    if GroupingOf(text[s]) == SplitIgnore {
      if s + 1 < i {
        TokensJoin(text, s + 1, i);
      } else {
        NoneAcross(text, i);
      }
    } else {
      var e := Split(text, s)[0].to;
      SameTokenMore(Range(s, e), Split(text, e), i);
      if i == e {
        NoneAcross(text, i);
      } else if e < i {
        TokensJoin(text, e, i);
      }
    }
  }

  // ---------- The stream ----------

  datatype Indexed = Indexed(offset: nat, point: CodePoint)

  /** The token stream over a text: `pending` is what it has still to hand out. */
  class ChineseTokenStream {
    const text: Text
    var pos: nat
    var lastChar: Option<Indexed>
    var token: Token
    ghost var pending: seq<Range>

    /** The character kept from the last call is the one before `pos`. */
    ghost predicate Ready()
      reads this
    {
      && WellFormed(text)
      && pos <= |text|
      && (lastChar.Some? ==> 0 < pos && lastChar.value == Indexed(Offset(text, pos - 1), text[pos - 1]))
    }

    ghost function Cursor(): nat
      requires Ready()
      reads this
    {
      if lastChar.Some? then pos - 1 else pos
    }

    ghost predicate Valid()
      reads this
    {
      Ready() && pending == Split(text, Cursor())
    }

    constructor (text: Text)
      requires WellFormed(text)
      ensures Valid() && this.text == text && pending == Split(text, 0) && token == Token(USIZE - 1, Range(0, 0), [])
    {
      this.text, pos, lastChar, pending := text, 0, None, Split(text, 0);
      token := Token(USIZE - 1, Range(0, 0), []);
    }

    /** The kept character, if any, and then those of the text. */
    method NextChar() returns (r: Option<Indexed>)
      requires Ready()
      modifies `pos, `lastChar
      ensures Ready() && lastChar == None
      ensures r == None <==> old(Cursor()) == |text|
      ensures r == None ==> pos == |text|
      ensures r.Some? ==> pos == old(Cursor()) + 1 && r.value == Indexed(Offset(text, old(Cursor())), text[old(Cursor())])
    {
      r := lastChar;
      lastChar := None;
      if r == None && pos < |text| {
        r := Some(Indexed(Offset(text, pos), text[pos]));
        pos := pos + 1;
      }
    }

    /** Reads on to the first character that does not belong to the run, and keeps it. */
    method FindRunEnd() returns (offset: nat, ghost end: nat)
      requires Ready() && lastChar == None
      modifies `pos, `lastChar
      ensures Ready() && Cursor() == end == RunEnd(text, old(pos)) && offset == Offset(text, end)
    {
      end := RunEnd(text, pos);
      while pos < |text|
        invariant Ready() && lastChar == None && RunEnd(text, pos) == end
      {
        var next := Indexed(Offset(text, pos), text[pos]);
        pos := pos + 1;
        if GroupingOf(next.point) != Keep {
          lastChar := Some(next);
          return next.offset, end;
        }
      }
      return Offset(text, |text|), end;
    }

    /** The token that starts with the character just read, at `cursor`, unless that is to be ignored. */
    method TokenFrom(next: Indexed, ghost cursor: nat) returns (found: bool)
      requires Ready() && lastChar == None && pos == cursor + 1 && pending == Split(text, cursor)
      requires next == Indexed(Offset(text, cursor), text[cursor])
      modifies this
      ensures token.position == old(token.position)
      ensures found ==>
                && Valid() && old(pending) != []
                && pending == old(pending)[1..] && token.Shows(text, old(pending)[0])
      ensures !found ==> unchanged(this) && pending == Split(text, pos)
    {
      match GroupingOf(next.point) {
        case Keep =>
          var to, end := FindRunEnd();
          token := CutToken(text, Range(cursor, end), Range(next.offset, to), token.position);
          pending := Split(text, end);
          return true;
        case SplitKeep =>
          token := CutToken(text, Range(cursor, cursor + 1), Range(next.offset, next.offset + next.point.width),
                            token.position);
          pending := Split(text, cursor + 1);
          return true;
        case SplitIgnore =>
          return false;
      }
    }

    /** Hands out the next token of the split, or nothing when there is none left. */
    method Advance() returns (found: bool)
      requires Valid()
      modifies this
      ensures Valid()
      ensures token.position == PositionAfter(old(token.position), 1)
      ensures found <==> old(pending) != []
      ensures found ==> pending == old(pending)[1..] && token.Shows(text, old(pending)[0])
      ensures !found ==> pending == [] && token.text == []
    {
      token := token.(position := PositionAfter(token.position, 1), text := []);
      ghost var cursor := Cursor();
      var next := NextChar();
      while next.Some?
        invariant Ready() && lastChar == None && token.position == PositionAfter(old(token.position), 1)
        invariant token.text == [] && cursor <= |text|
        invariant pending == old(pending) == Split(text, cursor)
        invariant next.Some? ==> pos == cursor + 1 && next.value == Indexed(Offset(text, cursor), text[cursor])
        invariant next == None ==> pos == cursor == |text|
        decreases |text| - cursor
      {
        found := TokenFrom(next.value, cursor);
        if found {
          return true;
        }
        cursor := cursor + 1;
        next := NextChar();
      }
      return false;
    }
  }

  method Drain(stream: ChineseTokenStream) returns (tokens: seq<Token>)
    requires stream.Valid()
    modifies stream
    ensures AllShown(tokens, stream.text, old(stream.pending), old(stream.token.position))
    decreases |stream.pending|
  {
    var found := stream.Advance();
    if !found {
      return [];
    }
    var first := stream.token;
    var rest := Drain(stream);
    FirstShown(first, rest, stream.text, old(stream.pending), old(stream.token.position));
    return [first] + rest;
  }

  /** The tokens of a whole text are those of its split, in order. */
  method Tokenize(text: Text) returns (tokens: seq<Token>)
    requires WellFormed(text)
    ensures |tokens| == |Split(text, 0)|
    ensures forall k :: 0 <= k < |tokens| ==> tokens[k].Shows(text, Split(text, 0)[k])
    ensures forall k :: 0 <= k < |tokens| ==> tokens[k].position == k % USIZE
  {
    var stream := new ChineseTokenStream(text);
    tokens := Drain(stream);
  }
}
