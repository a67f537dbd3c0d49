/** Character classes and the scanning loop that both lexers are built from. */
module Scanning {
  import opened Wrappers

  predicate IsDigit(c: char) {
    '0' <= c <= '9'
  }

  predicate IsLetter(c: char) {
    'a' <= c <= 'z' || 'A' <= c <= 'Z' || c == '_'
  }

  /** The regular expression class `\s`. */
  predicate IsSpace(c: char) {
    || '\t' <= c <= '\r' || c == ' ' || c == '\U{00A0}' || c == '\U{1680}' || '\U{2000}' <= c <= '\U{200A}'
    || c == '\U{2028}' || c == '\U{2029}' || c == '\U{202F}' || c == '\U{205F}' || c == '\U{3000}' || c == '\U{FEFF}'
  }

  // ----- the classes, character by character

  const DIGITS: string := "0123456789"
  const LOWER: string := "abcdefghijklmnopqrstuvwxyz"
  const UPPER: string := "ABCDEFGHIJKLMNOPQRSTUVWXYZ"
  const SPACES: string :=
    "\t\n\U{000B}\U{000C}\r \U{00A0}\U{1680}\U{2000}\U{2001}\U{2002}\U{2003}\U{2004}\U{2005}\U{2006}\U{2007}"
    + "\U{2008}\U{2009}\U{200A}\U{2028}\U{2029}\U{202F}\U{205F}\U{3000}\U{FEFF}"

  lemma InRange(c: char, text: string, first: char)
    requires forall i | 0 <= i < |text| :: text[i] as int == first as int + i
    ensures c in text <==> first as int <= c as int < first as int + |text|
  {
    if first as int <= c as int < first as int + |text| {
      var i := c as int - first as int;
      assert text[i] as int == c as int;
      assert text[i] == c;
    }
  }

  lemma DigitIs(c: char)
    ensures IsDigit(c) <==> c in DIGITS
  {
    InRange(c, DIGITS, '0');
  }

  lemma LetterIs(c: char)
    ensures IsLetter(c) <==> c in LOWER || c in UPPER || c == '_'
  {
    InRange(c, LOWER, 'a');
    InRange(c, UPPER, 'A');
  }

  lemma SpaceIs(c: char)
    ensures IsSpace(c) <==> c in SPACES
  {
  }

  /** Where a loop that advances over characters of class `p` stops. */
  function ScanEnd(src: string, pos: nat, p: char -> bool): (end: nat)
    requires pos <= |src|
    ensures pos <= end <= |src|
    decreases |src| - pos
  {
    if pos < |src| && p(src[pos]) then ScanEnd(src, pos + 1, p) else pos
  }

  lemma {:induction false} ScanStops(src: string, pos: nat, p: char -> bool)
    requires pos <= |src|
    ensures forall k | pos <= k < ScanEnd(src, pos, p) :: p(src[k])
    ensures ScanEnd(src, pos, p) < |src| ==> !p(src[ScanEnd(src, pos, p)])
    decreases |src| - pos
  {
    if pos < |src| && p(src[pos]) {
      ScanStops(src, pos + 1, p);
    }
  }

  lemma {:induction false} ScanEndIs(src: string, pos: nat, p: char -> bool, end: nat)
    requires pos <= end <= |src|
    requires forall k | pos <= k < end :: p(src[k])
    requires end < |src| ==> !p(src[end])
    ensures ScanEnd(src, pos, p) == end
    decreases end - pos
  {
    if pos < end {
      ScanEndIs(src, pos + 1, p, end);
    }
  }

  /** `text` stands in `src` at position `pos`. */
  ghost predicate At<T>(src: seq<T>, pos: nat, text: seq<T>) {
    pos + |text| <= |src| && src[pos..pos + |text|] == text
  }

  lemma AtConcat<T>(src: seq<T>, pos: nat, a: seq<T>, b: seq<T>)
    requires At(src, pos, a + b)
    ensures At(src, pos, a) && At(src, pos + |a|, b)
  {
    var whole := src[pos..pos + |a + b|];
    assert src[pos..pos + |a|] == whole[..|a|] == a;
    assert src[pos + |a|..pos + |a| + |b|] == whole[|a|..] == b;
  }

  lemma AtThree<T>(src: seq<T>, pos: nat, a: seq<T>, x: T, b: seq<T>)
    requires At(src, pos, a + [x] + b)
    ensures At(src, pos, a) && pos + |a| < |src| && src[pos + |a|] == x && At(src, pos + |a| + 1, b)
  {
    AtConcat(src, pos, a + [x], b);
    AtConcat(src, pos, a, [x]);
    AtIndex(src, pos + |a|, [x], 0);
  }

  lemma AtIndex<T>(src: seq<T>, pos: nat, text: seq<T>, k: nat)
    requires At(src, pos, text) && k < |text|
    ensures src[pos + k] == text[k]
  {
    assert src[pos..pos + |text|][k] == src[pos + k];
  }

  lemma {:induction false} TextAt(src: string, pos: nat, text: string)
    requires At(src, pos, text)
    ensures forall k | pos <= k < pos + |text| :: src[k] == text[k - pos]
  {
    forall k | pos <= k < pos + |text| ensures src[k] == text[k - pos] {
      AtIndex(src, pos, text, k - pos);
    }
  }

  /** A stretch of one class with something else, or nothing, behind it is scanned to its end. */
  lemma {:induction false} StretchReadsBack(src: string, pos: nat, value: string, p: char -> bool)
    requires value != [] && At(src, pos, value) && (forall c | c in value :: p(c))
    requires pos + |value| == |src| || !p(src[pos + |value|])
    ensures ScanEnd(src, pos + 1, p) == pos + |value| && src[pos..pos + |value|] == value && src[pos] == value[0]
  {
    TextAt(src, pos, value);
    forall k | pos + 1 <= k < pos + |value| ensures p(src[k]) {
      assert src[k] == value[k - pos];
    }
    ScanEndIs(src, pos + 1, p, pos + |value|);
  }

  lemma {:induction false} StretchIsUniform(src: string, pos: nat, p: char -> bool)
    requires pos < |src|
    ensures var text := src[pos..ScanEnd(src, pos + 1, p)];
            text != [] && text[0] == src[pos] && forall k | 1 <= k < |text| :: p(text[k])
  {
    ScanStops(src, pos + 1, p);
  }

  lemma SplitRest(src: string, pos: nat, first: string, tail: string)
    requires pos <= |src| && src[pos..] == first + tail
    ensures At(src, pos, first) && src[pos + |first|..] == tail
    ensures if tail == "" then pos + |first| == |src| else pos + |first| < |src| && src[pos + |first|] == tail[0]
  {
    var rest := src[pos..];
    assert src[pos..pos + |first|] == rest[..|first|] == first;
    assert src[pos + |first|..] == rest[|first|..] == tail;
  }

  // ----- token lists

  /** The tokens found so far before those still to come; `None` if there is an error ahead. */
  function Prepend<T>(tokens: seq<T>, rest: Option<seq<T>>): Option<seq<T>> {
    if rest.None? then None else Some(tokens + rest.value)
  }

  lemma PrependNothing<T>(rest: Option<seq<T>>)
    ensures Prepend([], rest) == rest
  {
    if rest.Some? {
      assert [] + rest.value == rest.value;
    }
  }

  lemma PrependOne<T>(tokens: seq<T>, token: T, rest: Option<seq<T>>)
    ensures Prepend(tokens, Prepend([token], rest)) == Prepend(tokens + [token], rest)
  {
    if rest.Some? {
      assert tokens + ([token] + rest.value) == tokens + [token] + rest.value;
    }
  }
}
