/** Texts as sequences of characters with byte offsets, and tokens cut out of them. */
module TokenText {
  import opened Options

  /** A character, as far as a tokenizer can tell: its Unicode scalar value, its UTF-8
      length and its Unicode properties. */
  datatype CodePoint = CodePoint(scalar: nat, width: nat, alphabetic: bool, uppercase: bool, numeric: bool)

  type Text = seq<CodePoint>

  /** The byte offset of character `i`. */
  function Offset(text: Text, i: nat): nat
    requires i <= |text|
  {
    if i == 0 then 0 else Offset(text, i - 1) + text[i - 1].width
  }

  /** A half-open range, of characters or of bytes. */
  datatype Range = Range(from: nat, to: nat)

  function Bytes(text: Text, r: Range): Range
    requires r.from <= |text| && r.to <= |text|
  {
    Range(Offset(text, r.from), Offset(text, r.to))
  }

  /** The character that starts at a byte offset; none if the offset is inside a character. */
  function CharAt(text: Text, offset: nat, i: nat): Option<nat>
    requires i <= |text|
    decreases |text| - i
  {
    if Offset(text, i) == offset then Some(i)
    else if i < |text| then CharAt(text, offset, i + 1)
    else None
  }

  /** No character is empty. */
  ghost predicate WellFormed(text: Text) {
    forall i :: 0 <= i < |text| ==> 0 < text[i].width
  }

  /** Offsets add up: those in the second of two texts count on from the length of the first. */
  lemma {:induction false} OffsetsAddUp(a: Text, b: Text, i: nat)
    requires i <= |b|
    ensures Offset(a + b, |a| + i) == Offset(a, |a|) + Offset(b, i)
    ensures i == 1 ==> Offset(b, i) == b[0].width
  {
    if i == 0 {
      OffsetOfPrefix(a, b, |a|);
    } else {
      OffsetsAddUp(a, b, i - 1);
    }
  }

  lemma {:induction false} OffsetOfPrefix(a: Text, b: Text, i: nat)
    requires i <= |a|
    ensures Offset(a + b, i) == Offset(a, i)
  {
    if 0 < i {
      OffsetOfPrefix(a, b, i - 1);
    }
  }

  lemma {:induction false} OffsetsIncrease(text: Text, i: nat, j: nat)
    requires WellFormed(text) && i < j <= |text|
    ensures Offset(text, i) < Offset(text, j)
  {
    if i < j - 1 {
      OffsetsIncrease(text, i, j - 1);
    }
  }

  /** The offset of a character is a place where the text can be cut. */
  lemma {:induction false} CharAtOffset(text: Text, i: nat, j: nat)
    requires WellFormed(text) && i <= j <= |text|
    ensures CharAt(text, Offset(text, j), i) == Some(j)
    decreases j - i
  {
    if i < j {
      OffsetsIncrease(text, i, j);
      CharAtOffset(text, i + 1, j);
    }
  }

  /** `position` counts the tokens of a stream, modulo the word size. */
  datatype Token = Token(position: nat, offsets: Range, text: Text) {
    /** This is the token at characters `r`: its offsets in bytes, and its characters. */
    ghost predicate Shows(whole: Text, r: Range) {
      r.from <= r.to <= |whole| && offsets == Bytes(whole, r) && text == whole[r.from..r.to]
    }
  }

  /** The token at characters `r`, given by its bytes: both ends are at a character, so the text can be
      cut there. */
  method CutToken(text: Text, ghost r: Range, bytes: Range, position: nat) returns (token: Token)
    requires WellFormed(text) && r.from <= r.to <= |text| && bytes == Bytes(text, r)
    ensures token.Shows(text, r) && token.position == position
  {
    CharAtOffset(text, 0, r.from);
    CharAtOffset(text, 0, r.to);
    token := Token(position, bytes, text[CharAt(text, bytes.from, 0).value..CharAt(text, bytes.to, 0).value]);
  }

  predicate Inside(r: Range, c: nat) {
    r.from <= c < r.to
  }

  predicate Covered(ts: seq<Range>, c: nat) {
    exists k :: 0 <= k < |ts| && Inside(ts[k], c)
  }

  /** Some token goes on from the character before `i` to the one at `i`. */
  predicate SameToken(ts: seq<Range>, i: nat) {
    exists k :: 0 <= k < |ts| && ts[k].from < i < ts[k].to
  }

  lemma SameTokenMore(first: Range, rest: seq<Range>, i: nat)
    requires first.from < i
    ensures SameToken([first] + rest, i) <==> i < first.to || SameToken(rest, i)
  {
    var ts := [first] + rest;
    if i < first.to {
      assert ts[0].from < i < ts[0].to;
    }
    if SameToken(rest, i) {
      var k :| 0 <= k < |rest| && rest[k].from < i < rest[k].to;
      assert ts[k + 1] == rest[k];
    }
  }

  const USIZE := 0x1_0000_0000_0000_0000

  /** The position `n` tokens on. */
  function PositionAfter(position: nat, n: nat): nat {
    (position + n) % USIZE
  }

  lemma PositionsAddUp(position: nat, m: nat, n: nat)
    ensures PositionAfter(PositionAfter(position, m), n) == PositionAfter(position, m + n)
  {
  }

  /** The tokens at these places, numbered on from `position`. */
  ghost predicate AllShown(tokens: seq<Token>, text: Text, ranges: seq<Range>, position: nat) {
    && |tokens| == |ranges|
    && (forall k :: 0 <= k < |tokens| ==> tokens[k].Shows(text, ranges[k]))
    && (forall k :: 0 <= k < |tokens| ==> tokens[k].position == PositionAfter(position, k + 1))
  }

  lemma FirstShown(first: Token, rest: seq<Token>, text: Text, ranges: seq<Range>, position: nat)
    requires ranges != [] && first.Shows(text, ranges[0]) && first.position == PositionAfter(position, 1)
    requires AllShown(rest, text, ranges[1..], first.position)
    ensures AllShown([first] + rest, text, ranges, position)
  {
    forall k | 0 < k <= |rest|
      ensures ([first] + rest)[k].position == PositionAfter(position, k + 1)
    {
      PositionsAddUp(position, 1, k);
    }
  }
}
