/** The flat response of the legacy firmware: its text escapes, and the list of fields it carries. */
module LegacyWire {
  import opened Common

  const AMPERSAND := "AMPERSAND"
  const NEWLINE := "\\n"

  // ------------------------------------------------------------------ encoder and decoder

  /** s.replace(/c/g, by) for a single character. */
  function ReplaceChar(s: string, c: char, by_: string): string {
    if s == [] then []
    else (if s[0] == c then by_ else [s[0]]) + ReplaceChar(s[1..], c, by_)
  }

  /** Replaces the leftmost matches of a word, which do not overlap. */
  function ReplaceWord(s: string, word: string, c: char): string
    requires word != []
  {
    if s == [] then []
    else if word <= s then [c] + ReplaceWord(s[|word|..], word, c)
    else [s[0]] + ReplaceWord(s[1..], word, c)
  }

  function EncodeText(s: string): string {
    ReplaceChar(ReplaceChar(ReplaceChar(s, ' ', "+"), '\n', NEWLINE), '&', AMPERSAND)
  }

  /** The three escapes; the firmware undoes them one after the other, in an order that is not documented. */
  datatype Escape = Space | LineBreak | Separator {
    function Char(): char {
      match this
      case Space => ' '
      case LineBreak => '\n'
      case Separator => '&'
    }

    function Word(): (word: string)
      ensures word != []
    {
      match this
      case Space => "+"
      case LineBreak => NEWLINE
      case Separator => AMPERSAND
    }
  }

  /** The firmware's decoding: the escapes of the list are replaced in that order. */
  function DecodeText(s: string, order: seq<Escape>): string
    decreases order
  {
    if order == [] then s else DecodeText(ReplaceWord(s, order[0].Word(), order[0].Char()), order[1..])
  }

  /** Every escape is undone, once or more often. */
  predicate UndoesAll(order: seq<Escape>) {
    Space in order && LineBreak in order && Separator in order
  }

  predicate Contains(s: string, word: string) {
    word <= s || (s != [] && Contains(s[1..], word))
  }

  /** Free of the three things that the wire format gives another meaning. */
  predicate Clean(s: string) {
    !Contains(s, "+") && !Contains(s, NEWLINE) && !Contains(s, AMPERSAND)
  }

  /** No proper suffix of the word is also a prefix, so no match can straddle an inserted one. */
  predicate Unbordered(word: string) {
    forall k :: 0 < k < |word| ==> word[k..] != word[..|word| - k]
  }

  // ------------------------------------------------------------------ undoing one replacement

  lemma {:induction false} PrefixThroughReplaceChar(s: string, c: char, by_: string, q: string)
    requires c !in q && by_ != [] && by_[0] !in q
    ensures q <= ReplaceChar(s, c, by_) <==> q <= s
  {
    if q != [] && s != [] && s[0] == c {
      NoPrefix(q, ReplaceChar(s, c, by_));
      NoPrefix(q, s);
    } else if q != [] && s != [] {
      PrefixThroughReplaceChar(s[1..], c, by_, q[1..]);
      ConsPrefix(q, s[0], s[1..]);
      ConsPrefix(q, s[0], ReplaceChar(s[1..], c, by_));
      assert s == [s[0]] + s[1..];
    }
  }

  lemma NoPrefix(q: string, t: string)
    requires q != [] && t != [] && t[0] !in q
    ensures !(q <= t)
  {
    assert q[0] in q;
  }

  lemma ConsPrefix(q: string, c: char, rest: string)
    requires q != []
    ensures q <= [c] + rest <==> q[0] == c && q[1..] <= rest
  {
    assert q == [q[0]] + q[1..];
    if q[0] == c && q[1..] <= rest {
      assert [c] + rest == q + rest[|q| - 1..];
    }
    if q <= [c] + rest {
      assert ([c] + rest)[..|q|] == q;
      assert rest[..|q| - 1] == q[1..];
    }
  }

  lemma OverlapIsBorder(word: string, rest: string, k: nat)
    requires k <= |word| && word[k..] <= word + rest
    ensures word[k..] == word[..|word| - k]
  {
    assert (word + rest)[..|word| - k] == word[..|word| - k];
  }

  /** A copy of the word put in for c cannot complete a match that starts before it. */
  lemma {:induction false} SuffixThroughInsertion(s: string, c: char, word: string, k: nat)
    requires Unbordered(word) && c !in word && 0 < k <= |word|
    ensures word[k..] <= ReplaceChar(s, c, word) <==> word[k..] <= s
    decreases |word| - k
  {
    var q := word[k..];
    if q != [] && s != [] {
      if s[0] == c {
        if q <= word + ReplaceChar(s[1..], c, word) {
          OverlapIsBorder(word, ReplaceChar(s[1..], c, word), k);
        }
      } else {
        SuffixThroughInsertion(s[1..], c, word, k + 1);
        ConsPrefix(q, s[0], s[1..]);
        ConsPrefix(q, s[0], ReplaceChar(s[1..], c, word));
        assert s == [s[0]] + s[1..];
        assert q[1..] == word[k + 1..];
      }
    }
  }

  lemma {:induction false} ReplaceCharAfterPrefix(q: string, rest: string, c: char, by_: string)
    requires c !in q
    ensures ReplaceChar(q + rest, c, by_) == q + ReplaceChar(rest, c, by_)
  {
    if q == [] {
      assert q + rest == rest;
    } else {
      ReplaceCharAfterPrefix(q[1..], rest, c, by_);
      assert (q + rest)[1..] == q[1..] + rest;
    }
  }

  lemma ReplaceWordAtPrefix(word: string, rest: string, c: char)
    requires word != []
    ensures ReplaceWord(word + rest, word, c) == [c] + ReplaceWord(rest, word, c)
  {
    assert (word + rest)[|word|..] == rest;
  }

  /** Decoding an encoded text normalises it: both spellings of c come out as c. */
  lemma {:induction false} UndoReplaceChar(s: string, c: char, word: string)
    requires word != [] && Unbordered(word) && c !in word
    ensures ReplaceWord(ReplaceChar(s, c, word), word, c) == ReplaceWord(s, word, c)
  {
    if s == [] {
    } else if s[0] == c {
      UndoReplaceChar(s[1..], c, word);
      ReplaceWordAtPrefix(word, ReplaceChar(s[1..], c, word), c);
      assert !(word <= s);
    } else {
      var rest := ReplaceChar(s[1..], c, word);
      SuffixThroughInsertion(s[1..], c, word, 1);
      ConsPrefix(word, s[0], s[1..]);
      ConsPrefix(word, s[0], rest);
      assert s == [s[0]] + s[1..];
      if word <= s {
        var tail := s[|word|..];
        assert s == word + tail;
        ReplaceCharAfterPrefix(word, tail, c, word);
        UndoReplaceChar(tail, c, word);
        ReplaceWordAtPrefix(word, ReplaceChar(tail, c, word), c);
      } else {
        UndoReplaceChar(s[1..], c, word);
        assert ([s[0]] + rest)[1..] == rest;
      }
    }
  }

  lemma {:induction false} NothingToReplace(s: string, word: string, c: char)
    requires word != [] && !Contains(s, word)
    ensures ReplaceWord(s, word, c) == s
  {
    if s != [] {
      NothingToReplace(s[1..], word, c);
      assert s == [s[0]] + s[1..];
    }
  }

  // ------------------------------------------------------------------ what replacements keep

  lemma {:induction false} ForeignPrefix(foreign: string, rest: string, word: string)
    requires word != [] && (forall ch <- foreign :: ch !in word) && Contains(foreign + rest, word)
    ensures Contains(rest, word)
  {
    if foreign == [] {
      assert foreign + rest == rest;
    } else {
      assert foreign[0] in foreign && (foreign + rest)[0] == foreign[0];
      assert (foreign + rest)[1..] == foreign[1..] + rest;
      ForeignPrefix(foreign[1..], rest, word);
    }
  }

  lemma {:induction false} PrefixThroughReplaceWord(s: string, word: string, c: char, q: string)
    requires word != [] && c !in q && q <= ReplaceWord(s, word, c)
    ensures q <= s
  {
    if q != [] && s != [] && !(word <= s) {
      var rest := ReplaceWord(s[1..], word, c);
      ConsPrefix(q, s[0], rest);
      PrefixThroughReplaceWord(s[1..], word, c, q[1..]);
      ConsPrefix(q, s[0], s[1..]);
      assert s == [s[0]] + s[1..];
    } else if q != [] && s != [] {
      ConsPrefix(q, c, ReplaceWord(s[|word|..], word, c));
    }
  }

  lemma {:induction false} ContainsSuffix(s: string, n: nat, word: string)
    requires n <= |s| && Contains(s[n..], word)
    ensures Contains(s, word)
  {
    if n > 0 {
      assert s[1..][n - 1..] == s[n..];
      ContainsSuffix(s[1..], n - 1, word);
    }
  }

  /** Replacing one word by a character foreign to another creates no match of the other. */
  lemma {:induction false} ReplaceWordAddsNoMatch(s: string, word: string, c: char, other: string)
    requires word != [] && other != [] && c !in other
    requires Contains(ReplaceWord(s, word, c), other)
    ensures Contains(s, other)
  {
    if s != [] {
      if word <= s {
        var rest := ReplaceWord(s[|word|..], word, c);
        ForeignPrefix([c], rest, other);
        ReplaceWordAddsNoMatch(s[|word|..], word, c, other);
        ContainsSuffix(s, |word|, other);
      } else {
        var rest := ReplaceWord(s[1..], word, c);
        assert ([s[0]] + rest)[1..] == rest;
        if other <= [s[0]] + rest {
          PrefixThroughReplaceWord(s, word, c, other);
        } else {
          ReplaceWordAddsNoMatch(s[1..], word, c, other);
        }
      }
    }
  }

  lemma {:induction false} ReplaceWordLeavesNoMatch(s: string, word: string, c: char)
    requires word != [] && c !in word
    ensures !Contains(ReplaceWord(s, word, c), word)
  {
    if s != [] {
      if word <= s {
        var rest := ReplaceWord(s[|word|..], word, c);
        ReplaceWordLeavesNoMatch(s[|word|..], word, c);
        if Contains([c] + rest, word) {
          ForeignPrefix([c], rest, word);
        }
      } else {
        var rest := ReplaceWord(s[1..], word, c);
        ReplaceWordLeavesNoMatch(s[1..], word, c);
        assert ([s[0]] + rest)[1..] == rest;
        if word <= [s[0]] + rest {
          PrefixThroughReplaceWord(s, word, c, word);
        }
      }
    }
  }

  // ------------------------------------------------------------------ the round trip

  lemma WordsAreUnbordered()
    ensures Unbordered("+") && Unbordered(NEWLINE) && Unbordered(AMPERSAND)
  {
    var w := AMPERSAND;
    assert NEWLINE[1..][0] == 'n' && NEWLINE[..1][0] == '\\';
    forall k | 0 < k < |w| ensures w[k..] != w[..|w| - k] {
      assert w[k..][|w| - k - 1] == 'D' && w[..|w| - k][|w| - k - 1] != 'D';
    }
  }

  predicate Disjoint(a: string, b: string) {
    forall c <- a :: c !in b
  }

  lemma {:induction false} ForeignIsSkipped(foreign: string, rest: string, word: string, c: char)
    requires word != [] && Disjoint(foreign, word)
    ensures ReplaceWord(foreign + rest, word, c) == foreign + ReplaceWord(rest, word, c)
  {
    if foreign == [] {
      assert foreign + rest == rest;
    } else {
      assert foreign[0] in foreign && (foreign + rest)[0] == foreign[0];
      NoPrefix(word, foreign + rest);
      ForeignIsSkipped(foreign[1..], rest, word, c);
      assert (foreign + rest)[1..] == foreign[1..] + rest;
    }
  }

  /** Undoing one escape commutes with doing another. */
  lemma {:induction false} UndoCommutes(s: string, word: string, c: char, other: char, otherWord: string)
    requires word != [] && otherWord != [] && Disjoint(otherWord, word) && other !in word && c != other
    ensures ReplaceWord(ReplaceChar(s, other, otherWord), word, c) ==
              ReplaceChar(ReplaceWord(s, word, c), other, otherWord)
  {
    if s == [] {
    } else if word <= s {
      var tail := s[|word|..];
      assert s == word + tail;
      ReplaceCharAfterPrefix(word, tail, other, otherWord);
      ReplaceWordAtPrefix(word, ReplaceChar(tail, other, otherWord), c);
      UndoCommutes(tail, word, c, other, otherWord);
      ReplaceCharAfterPrefix([c], ReplaceWord(tail, word, c), other, otherWord);
    } else {
      var rest, after := ReplaceChar(s[1..], other, otherWord), ReplaceWord(s[1..], word, c);
      UndoCommutes(s[1..], word, c, other, otherWord);
      assert ([s[0]] + after)[1..] == after;
      if s[0] == other {
        ForeignIsSkipped(otherWord, rest, word, c);
      } else {
        assert otherWord[0] in otherWord;
        PrefixThroughReplaceChar(s, other, otherWord, word);
        assert ([s[0]] + rest)[1..] == rest;
      }
    }
  }

  /** The escapes of a set, done in the encoder's order. */
  function EncodeOnly(todo: set<Escape>, s: string): string {
    var spaces := if Space in todo then ReplaceChar(s, ' ', "+") else s;
    var lines := if LineBreak in todo then ReplaceChar(spaces, '\n', NEWLINE) else spaces;
    if Separator in todo then ReplaceChar(lines, '&', AMPERSAND) else lines
  }

  lemma EscapesAreApart(e: Escape, f: Escape)
    ensures Unbordered(e.Word()) && e.Char() !in f.Word()
    ensures e != f ==> Disjoint(e.Word(), f.Word()) && e.Char() != f.Char()
  {
    WordsAreUnbordered();
  }

  /** One undone escape: it need not have been done in the first place. */
  lemma UndoOne(todo: set<Escape>, e: Escape, s: string)
    ensures ReplaceWord(EncodeOnly(todo, s), e.Word(), e.Char()) ==
              EncodeOnly(todo - {e}, ReplaceWord(s, e.Word(), e.Char()))
  {
    var spaces := if Space in todo then ReplaceChar(s, ' ', "+") else s;
    var lines := if LineBreak in todo then ReplaceChar(spaces, '\n', NEWLINE) else spaces;
    UndoOver(todo, e, Space, s);
    UndoOver(todo, e, LineBreak, spaces);
    UndoOver(todo, e, Separator, lines);
  }

  lemma UndoOver(todo: set<Escape>, e: Escape, f: Escape, s: string)
    ensures var done := if f in todo then ReplaceChar(s, f.Char(), f.Word()) else s;
            var undone := ReplaceWord(s, e.Word(), e.Char());
            ReplaceWord(done, e.Word(), e.Char()) ==
            if f in todo - {e} then ReplaceChar(undone, f.Char(), f.Word()) else undone
  {
    EscapesAreApart(e, f);
    EscapesAreApart(f, e);
    if e == f {
      UndoReplaceChar(s, e.Char(), e.Word());
    } else {
      UndoCommutes(s, e.Word(), e.Char(), f.Char(), f.Word());
    }
  }

  /** Decoding in any order that undoes every escape takes an encoded text to what it makes of the text itself. */
  lemma {:induction false} DecodeForgetsEncoding(todo: set<Escape>, order: seq<Escape>, s: string)
    requires forall e <- todo :: e in order
    ensures DecodeText(EncodeOnly(todo, s), order) == DecodeText(s, order)
    decreases order
  {
    if order == [] {
      assert todo == {};
    } else {
      UndoOne(todo, order[0], s);
      forall e | e in todo - {order[0]} ensures e in order[1..] {
      }
      DecodeForgetsEncoding(todo - {order[0]}, order[1..], ReplaceWord(s, order[0].Word(), order[0].Char()));
    }
  }

  lemma {:induction false} CleanIsKept(s: string, order: seq<Escape>)
    requires Clean(s)
    ensures DecodeText(s, order) == s
    decreases order
  {
    if order != [] {
      NothingToReplace(s, order[0].Word(), order[0].Char());
      CleanIsKept(s, order[1..]);
    }
  }

  /** Decoding removes the words of its list, and never brings a word back. */
  lemma {:induction false} DecodingRemoves(wire: string, order: seq<Escape>, e: Escape)
    requires e in order || !Contains(wire, e.Word())
    ensures !Contains(DecodeText(wire, order), e.Word())
    decreases order
  {
    if order != [] {
      var f, next := order[0], ReplaceWord(wire, order[0].Word(), order[0].Char());
      EscapesAreApart(f, e);
      if e == f {
        ReplaceWordLeavesNoMatch(wire, f.Word(), f.Char());
      } else if Contains(next, e.Word()) {
        ReplaceWordAddsNoMatch(wire, f.Word(), f.Char(), e.Word());
      }
      DecodingRemoves(next, order[1..], e);
    }
  }

  /** The decoder never outputs anything that would need escaping as text. */
  lemma DecodedIsClean(wire: string, order: seq<Escape>)
    requires UndoesAll(order)
    ensures Clean(DecodeText(wire, order))
  {
    DecodingRemoves(wire, order, Space);
    DecodingRemoves(wire, order, LineBreak);
    DecodingRemoves(wire, order, Separator);
  }

  /**
   * In whatever order the decoder undoes the escapes, a text survives the wire exactly when it is
   * free of `+`, of `\n` spelt out and of AMPERSAND.
   */
  lemma RoundTripIff(s: string, order: seq<Escape>)
    requires UndoesAll(order)
    ensures DecodeText(EncodeText(s), order) == s <==> Clean(s)
  {
    var all := {Space, LineBreak, Separator};
    assert EncodeText(s) == EncodeOnly(all, s);
    DecodeForgetsEncoding(all, order, s);
    if Clean(s) {
      CleanIsKept(s, order);
    } else {
      DecodedIsClean(s, order);
    }
  }

  lemma {:induction false} ReplaceCharRemoves(s: string, c: char, by_: string)
    ensures c !in by_ ==> c !in ReplaceChar(s, c, by_)
    ensures forall ch :: ch !in s && ch !in by_ ==> ch !in ReplaceChar(s, c, by_)
  {
    if s != [] {
      ReplaceCharRemoves(s[1..], c, by_);
    }
  }

  /** What a single character becomes on the wire. */
  function Escaped(c: char): string {
    if c == ' ' then "+" else if c == '\n' then NEWLINE else if c == '&' then AMPERSAND else [c]
  }

  function EscapedText(s: string): string {
    if s == [] then [] else Escaped(s[0]) + EscapedText(s[1..])
  }

  lemma {:induction false} ReplaceCharSplits(a: string, b: string, c: char, by_: string)
    ensures ReplaceChar(a + b, c, by_) == ReplaceChar(a, c, by_) + ReplaceChar(b, c, by_)
  {
    if a == [] {
      assert a + b == b;
    } else {
      ReplaceCharSplits(a[1..], b, c, by_);
      assert (a + b)[1..] == a[1..] + b;
    }
  }

  lemma EncodeTextSplits(a: string, b: string)
    ensures EncodeText(a + b) == EncodeText(a) + EncodeText(b)
  {
    ReplaceCharSplits(a, b, ' ', "+");
    var p, q := ReplaceChar(a, ' ', "+"), ReplaceChar(b, ' ', "+");
    ReplaceCharSplits(p, q, '\n', NEWLINE);
    ReplaceCharSplits(ReplaceChar(p, '\n', NEWLINE), ReplaceChar(q, '\n', NEWLINE), '&', AMPERSAND);
  }

  lemma {:induction false} KeptChars(s: string, c: char, by_: string)
    requires c !in s
    ensures ReplaceChar(s, c, by_) == s
  {
    if s != [] {
      KeptChars(s[1..], c, by_);
    }
  }

  lemma EncodeChar(c: char)
    ensures EncodeText([c]) == Escaped(c)
  {
    OneChar(c, ' ', "+");
    OneChar(c, '\n', NEWLINE);
    OneChar(c, '&', AMPERSAND);
    KeptChars("+", '\n', NEWLINE);
    KeptChars("+", '&', AMPERSAND);
    KeptChars(NEWLINE, '&', AMPERSAND);
  }

  lemma OneChar(c: char, d: char, by_: string)
    ensures ReplaceChar([c], d, by_) == if c == d then by_ else [c]
  {
    var rest := ReplaceChar([c][1..], d, by_);
    assert rest == [] && by_ + rest == by_ && [c] + rest == [c];
  }

  /** The three replacements never meet: every character is escaped for itself. */
  lemma {:induction false} EncodeTextIsCharwise(s: string)
    ensures EncodeText(s) == EscapedText(s)
  {
    if s != [] {
      EncodeTextIsCharwise(s[1..]);
      EncodeTextSplits([s[0]], s[1..]);
      EncodeChar(s[0]);
      assert s == [s[0]] + s[1..];
    }
  }

  /** An encoded text has no separator, no space and no line break, whatever the text. */
  lemma EncodedIsInert(s: string)
    ensures '&' !in EncodeText(s) && ' ' !in EncodeText(s) && '\n' !in EncodeText(s)
  {
    var plus := ReplaceChar(s, ' ', "+");
    ReplaceCharRemoves(s, ' ', "+");
    ReplaceCharRemoves(plus, '\n', NEWLINE);
    ReplaceCharRemoves(ReplaceChar(plus, '\n', NEWLINE), '&', AMPERSAND);
  }

  // ------------------------------------------------------------------ the response

  /** A property value: undefined, a string, an object's JSON, or the printed form of anything else. */
  datatype Value = Undefined | Text(s: string) | Json(s: string) | Scalar(s: string)

  datatype Field = Field(key: string, value: Value)

  function EncodeLegacyWateringValue(value: Value): Option<string> {
    match value
    case Undefined => None
    case Text(s) => Some(EncodeText(s))
    case Json(s) => Some(EncodeText(s))
    case Scalar(s) => Some(s)
  }

  function Piece(f: Field): string {
    match EncodeLegacyWateringValue(f.value)
    case None => ""
    case Some(v) => "&" + f.key + "=" + v
  }

  function Formatted(fields: seq<Field>): string {
    if fields == [] then "" else Piece(fields[0]) + Formatted(fields[1..])
  }

  method FormatLegacyWateringData(fields: seq<Field>) returns (formatted: string)
    ensures formatted == Formatted(fields)
  {
    formatted := "";
    for k := 0 to |fields|
      invariant formatted + Formatted(fields[k..]) == Formatted(fields)
    {
      FormattedStep(formatted, fields, k);
      var value := EncodeLegacyWateringValue(fields[k].value);
      if value.Some? {
        formatted := formatted + ("&" + fields[k].key + "=" + value.value);
      }
    }
  }

  lemma FormattedStep(formatted: string, fields: seq<Field>, k: nat)
    requires k < |fields|
    ensures formatted + Formatted(fields[k..]) == formatted + Piece(fields[k]) + Formatted(fields[k + 1..])
    ensures Piece(fields[k]) == "" ==> formatted + Formatted(fields[k..]) == formatted + Formatted(fields[k + 1..])
  {
    assert fields[k..][1..] == fields[k + 1..];
    assert formatted + "" == formatted;
  }

  /** Splits at every `&`. */
  function Split(s: string): (pieces: seq<string>)
    ensures pieces != []
  {
    if s == [] then [""]
    else
      var rest := Split(s[1..]);
      if s[0] == '&' then [""] + rest else [[s[0]] + rest[0]] + rest[1..]
  }

  /** Splits a piece at its first `=`. */
  function KeyOf(piece: string): string {
    if piece == [] || piece[0] == '=' then "" else [piece[0]] + KeyOf(piece[1..])
  }

  datatype WireField = WireField(key: string, value: string)

  function ParsePiece(piece: string): WireField {
    var key := KeyOf(piece);
    WireField(key, if |key| < |piece| then piece[|key| + 1..] else "")
  }

  function ParseAll(pieces: seq<string>): seq<WireField> {
    if pieces == [] then [] else [ParsePiece(pieces[0])] + ParseAll(pieces[1..])
  }

  /** What a reader of the response sees: everything behind the first `&`, piece by piece. */
  function Parse(wire: string): seq<WireField> {
    ParseAll(Split(wire)[1..])
  }

  /** The defined fields with their encoded values, in order. */
  function Shown(fields: seq<Field>): seq<WireField> {
    if fields == [] then []
    else
      var rest := Shown(fields[1..]);
      match EncodeLegacyWateringValue(fields[0].value)
      case None => rest
      case Some(v) => [WireField(fields[0].key, v)] + rest
  }

  /** Keys and printed scalars must not contain the separators; texts and objects may contain anything. */
  predicate WellFormed(f: Field) {
    && '&' !in f.key && '=' !in f.key
    && (f.value.Scalar? ==> '&' !in f.value.s)
  }

  lemma {:induction false} SplitAfter(q: string, rest: string)
    requires '&' !in q
    ensures Split(q + rest) == [q + Split(rest)[0]] + Split(rest)[1..]
  {
    var pieces := Split(rest);
    if q == [] {
      assert q + rest == rest;
      assert q + pieces[0] == pieces[0];
    } else {
      SplitAfter(q[1..], rest);
      var tail := Split(q[1..] + rest);
      assert tail[0] == q[1..] + pieces[0] && tail[1..] == pieces[1..];
      assert (q + rest)[1..] == q[1..] + rest && (q + rest)[0] == q[0] != '&';
      assert [q[0]] + (q[1..] + pieces[0]) == q + pieces[0];
    }
  }

  lemma {:induction false} KeyBeforeEquals(key: string, value: string)
    requires '=' !in key
    ensures KeyOf(key + "=" + value) == key
  {
    if key == [] {
      assert key + "=" + value == "=" + value;
    } else {
      KeyBeforeEquals(key[1..], value);
      assert (key + "=" + value)[1..] == key[1..] + "=" + value;
    }
  }

  lemma ParsesPiece(key: string, value: string)
    requires '=' !in key
    ensures ParsePiece(key + "=" + value) == WireField(key, value)
  {
    KeyBeforeEquals(key, value);
    assert (key + "=" + value)[|key| + 1..] == value;
  }

  lemma SplitSeparator(s: string)
    ensures Split("&" + s)[0] == "" && Split("&" + s)[1..] == Split(s)
  {
    assert ("&" + s)[1..] == s;
  }

  lemma SplitField(body: string, rest: string)
    requires '&' !in body && Split(rest)[0] == ""
    ensures Split("&" + body + rest)[0] == ""
    ensures Split("&" + body + rest)[1..] == [body] + Split(rest)[1..]
  {
    SplitAfter(body, rest);
    assert body + "" == body;
    SplitSeparator(body + rest);
    assert "&" + body + rest == "&" + (body + rest);
  }

  lemma ParseField(key: string, value: string, rest: string)
    requires '&' !in key && '=' !in key && '&' !in value && Split(rest)[0] == ""
    ensures var wire := "&" + key + "=" + value + rest;
            Split(wire)[0] == "" && Parse(wire) == [WireField(key, value)] + Parse(rest)
  {
    var body := key + "=" + value;
    ParsesPiece(key, value);
    SplitField(body, rest);
    assert "&" + key + "=" + value + rest == "&" + body + rest;
    var pieces := [body] + Split(rest)[1..];
    assert pieces[0] == body && pieces[1..] == Split(rest)[1..];
  }

  lemma {:induction false} FormattedParses(fields: seq<Field>)
    requires forall f <- fields :: WellFormed(f)
    ensures Split(Formatted(fields))[0] == ""
    ensures Parse(Formatted(fields)) == Shown(fields)
  {
    if fields != [] {
      var f, rest := fields[0], Formatted(fields[1..]);
      FormattedParses(fields[1..]);
      assert f in fields;
      var encoded := EncodeLegacyWateringValue(f.value);
      if encoded.Some? {
        if !f.value.Scalar? {
          EncodedIsInert(f.value.s);
        }
        ParseField(f.key, encoded.value, rest);
        assert Formatted(fields) == "&" + f.key + "=" + encoded.value + rest;
      } else {
        assert Formatted(fields) == rest;
      }
    }
  }

  /** The fields that have a value. */
  function Defined(fields: seq<Field>): seq<Field> {
    if fields == [] then []
    else (if fields[0].value.Undefined? then [] else [fields[0]]) + Defined(fields[1..])
  }

  /** The entry of a response that stands for a field: same key, numbers as printed, and clean texts to be decoded. */
  ghost predicate StandsFor(entry: WireField, f: Field) {
    && entry.key == f.key
    && match f.value
       case Undefined => false
       case Scalar(s) => entry.value == s
       case Text(s) => forall order | UndoesAll(order) :: DecodeText(entry.value, order) == s <==> Clean(s)
       case Json(s) => forall order | UndoesAll(order) :: DecodeText(entry.value, order) == s <==> Clean(s)
  }

  lemma {:induction false} ShownStandForDefined(fields: seq<Field>)
    ensures |Shown(fields)| == |Defined(fields)|
    ensures forall k :: 0 <= k < |Defined(fields)| ==> StandsFor(Shown(fields)[k], Defined(fields)[k])
  {
    if fields != [] {
      var f := fields[0];
      ShownStandForDefined(fields[1..]);
      if f.value.Text? || f.value.Json? {
        forall order | UndoesAll(order)
          ensures DecodeText(EncodeText(f.value.s), order) == f.value.s <==> Clean(f.value.s)
        {
          RoundTripIff(f.value.s, order);
        }
      }
      if !f.value.Undefined? {
        OneMoreStands(f, fields[1..]);
        assert StandsFor(Shown(fields)[0], f);
      } else {
        assert [] + Defined(fields[1..]) == Defined(fields[1..]);
      }
    }
  }

  lemma OneMoreStands(f: Field, rest: seq<Field>)
    requires !f.value.Undefined?
    ensures Shown([f] + rest)[1..] == Shown(rest) && Defined([f] + rest) == [f] + Defined(rest)
  {
    assert ([f] + rest)[1..] == rest;
  }

  /**
   * A formatted response, split at `&`, has exactly one entry for each field that has a value, in
   * order and with its key. Numbers are there as printed; a text or an object's JSON is recovered
   * by the decoder, in whatever order it undoes the escapes, if and only if it is clean.
   */
  lemma ResponseRoundTrip(fields: seq<Field>)
    requires forall f <- fields :: WellFormed(f)
    ensures |Parse(Formatted(fields))| == |Defined(fields)|
    ensures forall k :: 0 <= k < |Defined(fields)| ==> StandsFor(Parse(Formatted(fields))[k], Defined(fields)[k])
  {
    FormattedParses(fields);
    ShownStandForDefined(fields);
  }
}
