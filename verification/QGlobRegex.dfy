/** Glob matching: QedisCore/QGlobRegex.cc. The text is followed by a NUL, and that by memory that can hold anything. */
module QGlobRegex {
  import opened Bytes

  const STAR: byte := 42
  const QUESTION: byte := 63
  const OPEN: byte := 91
  const CLOSE: byte := 93
  const BACKSLASH: byte := 92
  const CARET: byte := 94
  const DASH: byte := 45

  // ----- what a pattern means -----

  datatype Token =
    | Literal(b: byte)
    | Any
    | AnyString
    | OneOf(positive: bool, spans: seq<(byte, byte)>)
    | Malformed

  /** A byte as a char, which has a sign. */
  function Char(b: byte): int { if b < 128 then b else b - 256 }

  predicate InSpan(c: byte, span: (byte, byte)) { Char(span.0) <= Char(c) <= Char(span.1) }

  predicate InSpans(c: byte, spans: seq<(byte, byte)>) { exists i :: 0 <= i < |spans| && InSpan(c, spans[i]) }

  datatype Bracket = Open | Closed(spans: seq<(byte, byte)>, rest: seq<byte>)

  /** The range between two bytes, given in either order. */
  function Span(a: byte, b: byte): (byte, byte) { if Char(a) <= Char(b) then (a, b) else (b, a) }

  /** The members of a bracket up to the one that closes it: x-y, in either order, or a single byte. A range needs a
      byte behind it. */
  function Members(p: seq<byte>): (b: Bracket)
    ensures b.Closed? ==> |b.rest| < |p|
  {
    if p == [] then Open
    else if p[0] == CLOSE then Closed([], p[1..])
    else
      var isRange := |p| > 3 && p[1] == DASH;
      match Members(if isRange then p[3..] else p[1..])
      case Open => Open
      case Closed(spans, rest) =>
        Closed([if !isRange then (p[0], p[0]) else Span(p[0], p[2])] + spans, rest)
  }

  /** What follows an opening bracket; a closing bracket right behind it is a member. */
  function BracketOf(p: seq<byte>): (b: Bracket)
    ensures b.Closed? ==> |b.rest| < |p|
  {
    if p != [] && p[0] == CLOSE then
      match Members(p[1..])
      case Open => Open
      case Closed(spans, rest) => Closed([(CLOSE, CLOSE)] + spans, rest)
    else Members(p)
  }

  /** The tokens of a pattern; only an opening bracket can be escaped. */
  function Tokens(p: seq<byte>): seq<Token>
    decreases |p|
  {
    if p == [] then []
    else if p[0] == STAR then [AnyString] + Tokens(p[1..])
    else if p[0] == QUESTION then [Any] + Tokens(p[1..])
    else if p[0] == OPEN then
      match BracketOf(Behind(p))
      case Open => [Malformed]
      case Closed(spans, rest) => [OneOf(!IsNegated(p), spans)] + Tokens(rest)
    else if IsEscape(p) then [Literal(OPEN)] + Tokens(p[2..])
    else [Literal(p[0])] + Tokens(p[1..])
  }

  /** A caret behind the opening bracket negates it. */
  predicate IsNegated(p: seq<byte>) { |p| > 1 && p[1] == CARET }

  /** What stands behind the opening bracket, and the caret. */
  function Behind(p: seq<byte>): seq<byte>
    requires p != []
  {
    if IsNegated(p) then p[2..] else p[1..]
  }

  predicate IsEscape(p: seq<byte>) { |p| > 1 && p[0] == BACKSLASH && p[1] == OPEN }

  predicate Takes(t: Token, c: byte) {
    match t
    case Literal(b) => c == b
    case Any => true
    case OneOf(positive, spans) => InSpans(c, spans) == positive
    case AnyString => false
    case Malformed => false
  }

  predicate Fits(t: Token, piece: seq<byte>) { t == AnyString || (|piece| == 1 && Takes(t, piece[0])) }

  /** The text falls into pieces, one for each token. */
  ghost predicate Splits(ts: seq<Token>, text: seq<byte>, pieces: seq<seq<byte>>) {
    |pieces| == |ts| && Join(pieces) == text && forall i :: 0 <= i < |ts| ==> Fits(ts[i], pieces[i])
  }

  ghost predicate Matches(ts: seq<Token>, text: seq<byte>) { exists pieces :: Splits(ts, text, pieces) }

  // ----- how a match goes from left to right -----

  lemma MatchesEmpty(text: seq<byte>)
    ensures Matches([], text) <==> text == []
  {
    if text == [] {
      assert Splits([], text, []);
    }
  }

  lemma SplitsFirst(ts: seq<Token>, text: seq<byte>, pieces: seq<seq<byte>>)
    requires Splits(ts, text, pieces) && ts != []
    ensures text == pieces[0] + Join(pieces[1..]) && Fits(ts[0], pieces[0])
    ensures Matches(ts[1..], Join(pieces[1..]))
  {
    assert Splits(ts[1..], Join(pieces[1..]), pieces[1..]);
  }

  lemma SplitsMore(t: Token, ts: seq<Token>, piece: seq<byte>, text: seq<byte>)
    requires Fits(t, piece) && Matches(ts, text)
    ensures Matches([t] + ts, piece + text)
  {
    var pieces :| Splits(ts, text, pieces);
    assert ([piece] + pieces)[1..] == pieces;
    assert Splits([t] + ts, piece + text, [piece] + pieces);
  }

  /** A token for one byte. */
  lemma MatchesOne(ts: seq<Token>, text: seq<byte>)
    requires ts != [] && ts[0] != AnyString
    ensures Matches(ts, text) <==> text != [] && Fits(ts[0], text[..1]) && Matches(ts[1..], text[1..])
  {
    if Matches(ts, text) {
      var pieces :| Splits(ts, text, pieces);
      SplitsFirst(ts, text, pieces);
      assert text[..1] == pieces[0] && text[1..] == Join(pieces[1..]);
    }
    if text != [] && Fits(ts[0], text[..1]) && Matches(ts[1..], text[1..]) {
      SplitsMore(ts[0], ts[1..], text[..1], text[1..]);
      assert text[..1] + text[1..] == text && [ts[0]] + ts[1..] == ts;
    }
  }

  /** A star takes any number of bytes. */
  lemma MatchesStar(ts: seq<Token>, text: seq<byte>)
    requires ts != [] && ts[0] == AnyString
    ensures Matches(ts, text) <==> exists k :: 0 <= k <= |text| && Matches(ts[1..], text[k..])
  {
    if Matches(ts, text) {
      var pieces :| Splits(ts, text, pieces);
      SplitsFirst(ts, text, pieces);
      assert text[|pieces[0]|..] == Join(pieces[1..]);
    }
    if k :| 0 <= k <= |text| && Matches(ts[1..], text[k..]) {
      SplitsMore(ts[0], ts[1..], text[..k], text[k..]);
      assert text[..k] + text[k..] == text && [ts[0]] + ts[1..] == ts;
    }
  }

  /** Two stars in a row are one. */
  lemma MatchesStars(ts: seq<Token>, text: seq<byte>)
    requires |ts| > 1 && ts[0] == AnyString && ts[1] == AnyString
    ensures Matches(ts, text) <==> Matches(ts[1..], text)
  {
    MatchesStar(ts, text);
    MatchesStar(ts[1..], text);
    if Matches(ts, text) {
      var k :| 0 <= k <= |text| && Matches(ts[1..], text[k..]);
      MatchesStar(ts[1..], text[k..]);
      var j :| 0 <= j <= |text[k..]| && Matches(ts[1..][1..], text[k..][j..]);
      assert text[k..][j..] == text[k + j..];
    }
    if Matches(ts[1..], text) {
      assert text[0..] == text;
    }
  }

  // ----- what patterns are for -----

  /** A member of a bracket: one byte, or a range that is spelled with a dash. */
  datatype Member = One(b: byte) | Range(a: byte, b: byte)

  /** A closing bracket would end the bracket, and a dash would make the byte before it the start of a range. */
  predicate IsMember(m: Member) { if m.One? then m.b !in {CLOSE, DASH} else m.a !in {CLOSE, DASH} }

  function FirstByte(m: Member): byte { if m.One? then m.b else m.a }

  function Spelled(ms: seq<Member>): seq<byte> {
    if ms == [] then []
    else (if ms[0].One? then [ms[0].b] else [ms[0].a, DASH, ms[0].b]) + Spelled(ms[1..])
  }

  /** A range takes what lies between its ends, as chars, whichever is first. */
  predicate HasByte(m: Member, c: byte) {
    if m.One? then c == m.b
    else Char(m.a) <= Char(c) <= Char(m.b) || Char(m.b) <= Char(c) <= Char(m.a)
  }

  lemma {:induction false} MembersOfSpelled(ms: seq<Member>, rest: seq<byte>, c: byte)
    requires forall m :: m in ms ==> IsMember(m)
    ensures var b := Members(Spelled(ms) + ([CLOSE] + rest));
            b.Closed? && b.rest == rest && (InSpans(c, b.spans) <==> exists m :: m in ms && HasByte(m, c))
    decreases |ms|
  {
    hide InSpans;
    var p := Spelled(ms) + ([CLOSE] + rest);
    if ms == [] {
      assert p == [CLOSE] + rest && p[1..] == rest;
      MembersEnd(p);
    } else {
      var m, more := ms[0], Spelled(ms[1..]) + ([CLOSE] + rest);
      MembersOfSpelled(ms[1..], rest, c);
      assert m in ms && forall n :: n in ms <==> n == m || n in ms[1..];
      FirstSpelled(ms, rest, c);
      InMore(c, SpanOf(p), Members(more).spans);
    }
  }

  lemma FirstSpelled(ms: seq<Member>, rest: seq<byte>, c: byte)
    requires ms != [] && forall m :: m in ms ==> IsMember(m)
    ensures var p, more := Spelled(ms) + ([CLOSE] + rest), Spelled(ms[1..]) + ([CLOSE] + rest);
            && p != [] && p[0] == FirstByte(ms[0]) && p[0] != CLOSE
            && (if |p| > 3 && p[1] == DASH then p[3..] else p[1..]) == more
            && (InSpan(c, SpanOf(p)) <==> HasByte(ms[0], c))
            && Members(p).Open? == Members(more).Open?
            && (Members(more).Closed? ==> Members(p).rest == Members(more).rest
                                          && Members(p).spans == [SpanOf(p)] + Members(more).spans)
  {
    hide Members;
    var tail := [CLOSE] + rest;
    var more := Spelled(ms[1..]) + tail;
    assert ms[0] in ms;
    SpelledShape(ms, tail);
    FirstOfMore(ms, rest);
    var p := Spelled(ms) + tail;
    MembersStep(p);
    hide Spelled;
    if ms[0].One? {
      assert p[1..] == more && (|p| > 1 ==> p[1] == more[0]);
    } else {
      assert p[3..] == more && p[1] == DASH && |p| > 3;
    }
  }

  lemma SpelledShape(ms: seq<Member>, tail: seq<byte>)
    requires ms != []
    ensures var m := ms[0];
            Spelled(ms) + tail == (if m.One? then [m.b] else [m.a, DASH, m.b]) + (Spelled(ms[1..]) + tail)
  {
    AppendAssociates(if ms[0].One? then [ms[0].b] else [ms[0].a, DASH, ms[0].b], Spelled(ms[1..]), tail);
  }

  lemma FirstOfMore(ms: seq<Member>, rest: seq<byte>)
    requires ms != [] && forall m :: m in ms ==> IsMember(m)
    ensures var more := Spelled(ms[1..]) + ([CLOSE] + rest); |more| > 0 && more[0] != DASH
  {
    if |ms| > 1 {
      assert ms[1] in ms;
      SpelledShape(ms[1..], [CLOSE] + rest);
    }
  }

  /** A bracket of bytes and ranges takes exactly the bytes that are among them or within one of them, and with a caret
      exactly the others. */
  lemma BracketTakes(ms: seq<Member>, negated: bool, rest: seq<byte>, c: byte)
    requires ms != [] && (forall m :: m in ms ==> IsMember(m)) && (negated || FirstByte(ms[0]) != CARET)
    ensures var p := [OPEN] + ((if negated then [CARET] else []) + (Spelled(ms) + ([CLOSE] + rest)));
            var ts := Tokens(p);
            && |ts| > 0 && ts[0].OneOf? && ts[1..] == Tokens(rest)
            && (Takes(ts[0], c) <==> if negated then !exists m :: m in ms && HasByte(m, c)
                                     else exists m :: m in ms && HasByte(m, c))
  {
    hide InSpans, HasByte, Members, Tokens, Spelled, Behind, IsNegated;
    var q := Spelled(ms) + ([CLOSE] + rest);
    var p := [OPEN] + ((if negated then [CARET] else []) + q);
    MembersOfSpelled(ms, rest, c);
    FirstSpelled(ms, rest, c);
    BehindIs(p, q, negated);
    BracketToken(p);
    var ts := Tokens(p);
    assert ts[1..] == Tokens(rest);
  }

  lemma BehindIs(p: seq<byte>, q: seq<byte>, negated: bool)
    requires p == [OPEN] + ((if negated then [CARET] else []) + q) && q != [] && (negated || q[0] != CARET)
    ensures Behind(p) == q && IsNegated(p) == negated && p[0] == OPEN
  {
    if negated {
      assert p[2..] == q;
    } else {
      assert p[1..] == q;
    }
  }

  lemma BracketToken(p: seq<byte>)
    requires p != [] && p[0] == OPEN && BracketOf(Behind(p)).Closed?
    ensures var b := BracketOf(Behind(p)); Tokens(p) == [OneOf(!IsNegated(p), b.spans)] + Tokens(b.rest)
  {
  }

  /** A question mark takes one byte, a star any number. */
  lemma WildcardsTake(p: seq<byte>, text: seq<byte>)
    ensures Matches(Tokens([QUESTION] + p), text) <==> text != [] && Matches(Tokens(p), text[1..])
    ensures Matches(Tokens([STAR] + p), text) <==> exists k :: 0 <= k <= |text| && Matches(Tokens(p), text[k..])
  {
    hide Matches;
    assert ([QUESTION] + p)[1..] == p && ([STAR] + p)[1..] == p;
    assert Tokens([QUESTION] + p)[1..] == Tokens(p) && Tokens([STAR] + p)[1..] == Tokens(p);
    MatchesOne(Tokens([QUESTION] + p), text);
    MatchesStar(Tokens([STAR] + p), text);
  }

  /** The text with a backslash in front of every opening bracket. */
  function Escaped(s: seq<byte>): seq<byte> {
    if s == [] then [] else (if s[0] == OPEN then [BACKSLASH, OPEN] else [s[0]]) + Escaped(s[1..])
  }

  /** So spelled, a text without stars and question marks is matched by itself and by nothing else. */
  lemma {:induction false} EscapedMatches(s: seq<byte>, text: seq<byte>)
    requires forall b :: b in s ==> b !in {STAR, QUESTION}
    ensures Matches(Tokens(Escaped(s)), text) <==> text == s
    decreases |s|
  {
    hide Matches;
    var ts := Tokens(Escaped(s));
    if s == [] {
      MatchesEmpty(text);
    } else {
      assert s[0] in s;
      EscapedFirst(s);
      MatchesOne(ts, text);
      if text != [] {
        assert forall b :: b in s[1..] ==> b in s;
        EscapedMatches(s[1..], text[1..]);
        assert text == s <==> text[0] == s[0] && text[1..] == s[1..] by {
          assert text == [text[0]] + text[1..] && s == [s[0]] + s[1..];
        }
      }
    }
  }

  lemma EscapedFirst(s: seq<byte>)
    requires s != [] && s[0] !in {STAR, QUESTION}
    ensures Tokens(Escaped(s)) == [Literal(s[0])] + Tokens(Escaped(s[1..]))
  {
    var p := Escaped(s);
    if s[0] == OPEN {
      assert p[2..] == Escaped(s[1..]);
    } else {
      assert p[1..] == Escaped(s[1..]);
      assert |s| > 1 && s[1] == OPEN ==> p[1] == BACKSLASH;
    }
  }

  // ----- what the matcher accepts -----

  /** The text, the NUL behind it, and what memory holds behind that. */
  function At(text: seq<byte>, memory: nat -> byte, i: nat): byte {
    if i < |text| then text[i] else if i == |text| then 0 else memory(i)
  }

  /** What the matcher accepts from offset off on, token by token. Only a bracket looks at the byte behind the end of
      the text; once it has taken it, brackets and question marks go on behind it, and a star at the end accepts. */
  ghost predicate Accepts(ts: seq<Token>, text: seq<byte>, memory: nat -> byte, off: nat)
    decreases |ts|, 0
  {
    if ts == [] then off == |text|
    else if ts[0] == AnyString then
      |ts| == 1
      || if ts[1] == AnyString then Accepts(ts[1..], text, memory, off)
         else AcceptsLater(ts[1..], text, memory, off)
    else
      && (ts[0].Literal? ==> off < |text|) && (ts[0].Any? ==> off != |text|)
      && Takes(ts[0], At(text, memory, off)) && Accepts(ts[1..], text, memory, off + 1)
  }

  ghost predicate AcceptsLater(ts: seq<Token>, text: seq<byte>, memory: nat -> byte, off: nat)
    decreases |ts|, 1, |text| - off
  {
    off < |text| && (Accepts(ts, text, memory, off) || AcceptsLater(ts, text, memory, off + 1))
  }

  ghost predicate AcceptsAt(ts: seq<Token>, text: seq<byte>, memory: nat -> byte, k: nat) {
    Accepts(ts, text, memory, k)
  }

  lemma {:induction false} LaterIs(ts: seq<Token>, text: seq<byte>, memory: nat -> byte, off: nat)
    ensures AcceptsLater(ts, text, memory, off) <==> exists k :: off <= k < |text| && AcceptsAt(ts, text, memory, k)
    decreases |text| - off
  {
    if off < |text| {
      LaterIs(ts, text, memory, off + 1);
      assert AcceptsAt(ts, text, memory, off) <==> Accepts(ts, text, memory, off);
    }
  }

  /** The same, once the end of the text has been passed. */
  ghost predicate Passes(ts: seq<Token>, memory: nat -> byte, off: nat)
    decreases |ts|
  {
    ts != []
    && if ts[0] == AnyString then forall i :: 0 <= i < |ts| ==> ts[i] == AnyString
       else !ts[0].Literal? && Takes(ts[0], memory(off)) && Passes(ts[1..], memory, off + 1)
  }

  /** The tokens before token i match the text from off on, and token i is a bracket that takes the NUL behind it. */
  ghost predicate OverrunAt(ts: seq<Token>, text: seq<byte>, memory: nat -> byte, off: nat, i: int)
    requires off <= |text|
  {
    && 0 <= i < |ts| && (i == 0 || ts[i - 1] != AnyString) && ts[i].OneOf? && Takes(ts[i], 0)
    && Matches(ts[..i], text[off..]) && Passes(ts[i + 1..], memory, |text| + 1)
  }

  ghost predicate Overruns(ts: seq<Token>, text: seq<byte>, memory: nat -> byte, off: nat)
    requires off <= |text|
  {
    exists i :: OverrunAt(ts, text, memory, off, i)
  }

  lemma {:induction false} AcceptsBehind(ts: seq<Token>, text: seq<byte>, memory: nat -> byte, off: nat)
    requires off > |text|
    ensures Accepts(ts, text, memory, off) <==> Passes(ts, memory, off)
    decreases |ts|
  {
    if ts != [] && ts[0] == AnyString {
      if |ts| > 1 && ts[1] == AnyString {
        AcceptsBehind(ts[1..], text, memory, off);
        assert forall i :: 0 < i < |ts| ==> ts[i] == ts[1..][i - 1];
      }
    } else if ts != [] {
      AcceptsBehind(ts[1..], text, memory, off + 1);
    }
  }

  /** The matcher accepts exactly what matches, and what overruns the text. */
  lemma {:induction false} AcceptsIs(ts: seq<Token>, text: seq<byte>, memory: nat -> byte, off: nat)
    requires off <= |text|
    ensures Accepts(ts, text, memory, off)
            <==> Matches(ts, text[off..]) || Overruns(ts, text, memory, off)
    decreases |ts|
  {
    hide Matches, Passes, OverrunAt, Takes;
    if ts == [] {
      MatchesEmpty(text[off..]);
      NoOverrun(text, memory, off);
    } else if ts[0] != AnyString {
      AcceptsOne(ts, text, memory, off);
    } else if |ts| == 1 {
      OneStar(ts, text[off..]);
    } else if ts[1] == AnyString {
      AcceptsIs(ts[1..], text, memory, off);
      MatchesStars(ts, text[off..]);
      OverrunsStars(ts, text, memory, off);
    } else {
      AcceptsStar(ts, text, memory, off);
    }
  }

  lemma NoOverrun(text: seq<byte>, memory: nat -> byte, off: nat)
    requires off <= |text|
    ensures !Overruns([], text, memory, off)
  {
  }

  lemma OneStar(ts: seq<Token>, text: seq<byte>)
    requires ts == [AnyString]
    ensures Matches(ts, text)
  {
    MatchesStar(ts, text);
    MatchesEmpty(text[|text|..]);
    assert ts[1..] == [];
  }

  lemma {:induction false} AcceptsOne(ts: seq<Token>, text: seq<byte>, memory: nat -> byte, off: nat)
    requires off <= |text| && ts != [] && ts[0] != AnyString
    ensures Accepts(ts, text, memory, off)
            <==> Matches(ts, text[off..]) || Overruns(ts, text, memory, off)
    decreases |ts|, 0
  {
    hide Matches, Passes, OverrunAt, InSpans;
    MatchesOne(ts, text[off..]);
    if off < |text| {
      AcceptsIs(ts[1..], text, memory, off + 1);
      OverrunsOne(ts, text, memory, off);
      assert text[off..][1..] == text[off + 1..] && text[off..][..1] == [text[off]];
    } else {
      assert text[off..] == [];
      AcceptsBehind(ts[1..], text, memory, off + 1);
      OverrunsNow(ts, text, memory, off);
    }
  }

  lemma OverrunsOne(ts: seq<Token>, text: seq<byte>, memory: nat -> byte, off: nat)
    requires off < |text| && ts != [] && ts[0] != AnyString
    ensures Overruns(ts, text, memory, off) <==> Takes(ts[0], text[off]) && Overruns(ts[1..], text, memory, off + 1)
  {
    hide Matches, Passes, Takes;
    var rest := text[off..];
    assert rest[1..] == text[off + 1..] && rest[..1] == [text[off]];
    MatchesEmpty(rest);
    assert ts[..0] == [];
    forall i | 0 < i < |ts|
      ensures OverrunAt(ts, text, memory, off, i)
              <==> Takes(ts[0], text[off]) && OverrunAt(ts[1..], text, memory, off + 1, i - 1)
    {
      MatchesOne(ts[..i], rest);
      assert ts[..i][1..] == ts[1..][..i - 1] && ts[1..][i - 1 + 1..] == ts[i + 1..];
    }
    if Takes(ts[0], text[off]) && Overruns(ts[1..], text, memory, off + 1) {
      var j :| OverrunAt(ts[1..], text, memory, off + 1, j);
      assert OverrunAt(ts, text, memory, off, j + 1);
    }
  }

  lemma OverrunsNow(ts: seq<Token>, text: seq<byte>, memory: nat -> byte, off: nat)
    requires off == |text| && ts != [] && ts[0] != AnyString
    ensures Overruns(ts, text, memory, off)
            <==> ts[0].OneOf? && Takes(ts[0], 0) && Passes(ts[1..], memory, off + 1)
  {
    hide Matches, Passes, Takes;
    MatchesEmpty(text[off..]);
    assert ts[..0] == [];
    forall i | 0 < i < |ts| ensures !OverrunAt(ts, text, memory, off, i) {
      MatchesOne(ts[..i], text[off..]);
    }
    assert OverrunAt(ts, text, memory, off, 0) <==> ts[0].OneOf? && Takes(ts[0], 0) && Passes(ts[1..], memory, off + 1);
  }

  lemma OverrunsStars(ts: seq<Token>, text: seq<byte>, memory: nat -> byte, off: nat)
    requires off <= |text| && |ts| > 1 && ts[0] == AnyString && ts[1] == AnyString
    ensures Overruns(ts, text, memory, off) <==> Overruns(ts[1..], text, memory, off)
  {
    hide Matches, Passes, Takes;
    forall i | 1 < i < |ts|
      ensures OverrunAt(ts, text, memory, off, i) <==> OverrunAt(ts[1..], text, memory, off, i - 1)
    {
      MatchesStars(ts[..i], text[off..]);
      assert ts[..i][1..] == ts[1..][..i - 1] && ts[1..][i - 1 + 1..] == ts[i + 1..];
    }
    if j :| OverrunAt(ts[1..], text, memory, off, j) {
      assert OverrunAt(ts, text, memory, off, j + 1);
    }
  }

  lemma {:induction false} AcceptsStar(ts: seq<Token>, text: seq<byte>, memory: nat -> byte, off: nat)
    requires off <= |text| && |ts| > 1 && ts[0] == AnyString && ts[1] != AnyString
    ensures Accepts(ts, text, memory, off)
            <==> Matches(ts, text[off..]) || Overruns(ts, text, memory, off)
    decreases |ts|, 0
  {
    hide Matches, Passes, Takes, Accepts, Overruns;
    var rest := text[off..];
    StarAccepts(ts, text, memory, off);
    MatchesStar(ts, rest);
    MatchesOne(ts[1..], []);
    OverrunsStar(ts, text, memory, off);
    forall k | off <= k < |text|
      ensures AcceptsAt(ts[1..], text, memory, k)
              <==> Matches(ts[1..], rest[k - off..]) || Overruns(ts[1..], text, memory, k)
    {
      AcceptsIs(ts[1..], text, memory, k);
      assert rest[k - off..] == text[k..];
    }
    assert rest[|rest|..] == [];
    if k :| 0 <= k <= |rest| && Matches(ts[1..], rest[k..]) {
      assert k < |rest| && rest[off + k - off..] == rest[k..];
      assert AcceptsAt(ts[1..], text, memory, off + k);
    }
  }

  lemma StarAccepts(ts: seq<Token>, text: seq<byte>, memory: nat -> byte, off: nat)
    requires |ts| > 1 && ts[0] == AnyString && ts[1] != AnyString
    ensures Accepts(ts, text, memory, off) <==> exists k :: off <= k < |text| && AcceptsAt(ts[1..], text, memory, k)
  {
    LaterIs(ts[1..], text, memory, off);
  }

  lemma OverrunsStar(ts: seq<Token>, text: seq<byte>, memory: nat -> byte, off: nat)
    requires off <= |text| && |ts| > 1 && ts[0] == AnyString && ts[1] != AnyString
    ensures Overruns(ts, text, memory, off)
            <==> exists k :: off <= k < |text| && Overruns(ts[1..], text, memory, k)
  {
    hide Matches, Passes, Takes;
    if i :| OverrunAt(ts, text, memory, off, i) {
      assert i > 1;
      var k := StarOverrun(ts, text, memory, off, i);
      assert Overruns(ts[1..], text, memory, k);
    }
    if k :| off <= k < |text| && Overruns(ts[1..], text, memory, k) {
      var j :| OverrunAt(ts[1..], text, memory, k, j);
      MatchesEmpty(text[k..]);
      assert ts[1..][..0] == [];
      MatchesStar(ts[..j + 1], text[off..]);
      assert ts[..j + 1][1..] == ts[1..][..j] && text[off..][k - off..] == text[k..];
      assert ts[1..][j + 1..] == ts[j + 1 + 1..];
      assert OverrunAt(ts, text, memory, off, j + 1);
    }
  }

  lemma StarOverrun(ts: seq<Token>, text: seq<byte>, memory: nat -> byte, off: nat, i: int) returns (k: nat)
    requires off <= |text| && |ts| > 1 && ts[0] == AnyString && ts[1] != AnyString
    requires i > 1 && OverrunAt(ts, text, memory, off, i)
    ensures off <= k < |text| && OverrunAt(ts[1..], text, memory, k, i - 1)
  {
    hide Matches, Passes, Takes;
    MatchesStar(ts[..i], text[off..]);
    var n :| 0 <= n <= |text[off..]| && Matches(ts[..i][1..], text[off..][n..]);
    k := off + n;
    assert text[off..][n..] == text[k..] && ts[..i][1..] == ts[1..][..i - 1];
    MatchesOne(ts[1..][..i - 1], text[k..]);
    assert ts[1..][i - 1 + 1..] == ts[i + 1..];
  }

  // ----- the matcher -----

  /** A bracket as it is collected: single bytes, and ranges. */
  predicate Collected(c: byte, chars: set<byte>, spans: set<(byte, byte)>) {
    c in chars || exists span :: span in spans && InSpan(c, span)
  }

  class QGlobRegex {
    const pattern: seq<byte>
    const text: seq<byte>
    /** What can be read behind the NUL that ends the text. */
    const memory: nat -> byte
    var pOff: nat
    var tOff: nat

    constructor (pattern: seq<byte>, text: seq<byte>, memory: nat -> byte)
      ensures this.pattern == pattern && this.text == text && this.memory == memory && pOff == 0 && tOff == 0
    {
      this.pattern, this.text, this.memory := pattern, text, memory;
      pOff, tOff := 0, 0;
    }

    /** What is left of the pattern is accepted from tOff on. */
    ghost predicate Goal()
      requires pOff <= |pattern|
      reads this
    {
      Accepts(Tokens(pattern[pOff..]), text, memory, tOff)
    }

    /** glob_match: what the pattern matches is accepted; and also a text that the pattern overruns. */
    method Match() returns (r: bool)
      requires pOff == 0 && tOff == 0
      modifies this`pOff, this`tOff
      ensures r <==> Matches(Tokens(pattern), text) || Overruns(Tokens(pattern), text, memory, 0)
    {
      hide Matches, Overruns, Accepts, Tokens;
      AcceptsIs(Tokens(pattern), text, memory, 0);
      assert pattern[0..] == pattern && text[0..] == text;
      r := TryMatch();
    }

    /** TryMatch. */
    method TryMatch() returns (r: bool)
      requires pOff <= |pattern|
      modifies this`pOff, this`tOff
      ensures r <==> old(Goal())
      ensures pOff <= |pattern|
      decreases |pattern| - pOff, 1
    {
      hide Accepts, Tokens;
      while pOff < |pattern|
        invariant old(pOff) <= pOff <= |pattern| && Goal() == old(Goal())
        decreases |pattern| - pOff
      {
        var c := pattern[pOff];
        if c == STAR {
          r := ProcessStar();
          return;
        } else if c == QUESTION {
          var ok := ProcessQuestion();
          if !ok { return false; }
        } else if c == OPEN {
          var ok := ProcessBracket();
          if !ok { return false; }
        } else {
          ghost var p := pattern[pOff..];
          LiteralStep(p, text, memory, tOff);
          if c == BACKSLASH && pOff + 1 < |pattern| && pattern[pOff + 1] == OPEN {
            pOff := pOff + 1;
          }
          if tOff >= |text| { return false; }
          if pattern[pOff] != text[tOff] { return false; }
          pOff := pOff + 1;
          tOff := tOff + 1;
          assert pattern[pOff..] == p[if IsEscape(p) then 2 else 1..];
        }
      }
      NoTokens(text, memory, tOff);
      assert pattern[pOff..] == [];
      return pOff == |pattern| && tOff == |text|;
    }

    /** _ProcessQuestion: a run of question marks. */
    method ProcessQuestion() returns (r: bool)
      requires pOff < |pattern| && pattern[pOff] == QUESTION
      modifies this`pOff, this`tOff
      ensures old(pOff) <= pOff <= |pattern| && (r ==> old(pOff) < pOff)
      ensures if r then Goal() == old(Goal()) else !old(Goal())
    {
      hide Accepts, Tokens;
      while pOff < |pattern|
        invariant old(pOff) <= pOff <= |pattern| && Goal() == old(Goal())
        invariant pOff == old(pOff) ==> pOff < |pattern|
        decreases |pattern| - pOff
      {
        if pattern[pOff] != QUESTION { break; }
        QuestionStep(pattern[pOff..], text, memory, tOff);
        if tOff == |text| { return false; }
        pOff := pOff + 1;
        tOff := tOff + 1;
        assert pattern[pOff..] == pattern[pOff - 1..][1..];
      }
      return true;
    }

    /** _ProcessStar: tries the rest of the pattern at every byte of the text that is left. */
    method ProcessStar() returns (r: bool)
      requires pOff < |pattern| && pattern[pOff] == STAR
      modifies this`pOff, this`tOff
      ensures r <==> old(Goal())
      ensures pOff <= |pattern|
      decreases |pattern| - pOff, 0
    {
      hide Accepts, Tokens;
      StarStep(pattern[pOff..], text, memory, tOff);
      pOff := pOff + 1;
      assert pattern[pOff..] == pattern[pOff - 1..][1..];
      while pOff < |pattern| && pattern[pOff] == STAR
        invariant old(pOff) < pOff <= |pattern| && tOff == old(tOff)
        invariant Accepts([AnyString] + Tokens(pattern[pOff..]), text, memory, tOff) == old(Goal())
        decreases |pattern| - pOff
      {
        StarStep(pattern[pOff..], text, memory, tOff);
        pOff := pOff + 1;
        assert pattern[pOff..] == pattern[pOff - 1..][1..];
      }
      StarChoices(pattern[pOff..], text, memory, tOff);
      if pOff == |pattern| { return true; }
      ghost var start, rest, ts := tOff, pOff, Tokens(pattern[pOff..]);
      while tOff < |text|
        invariant pOff == rest < |pattern| && old(pOff) < pOff && start <= tOff
        invariant forall k :: start <= k < tOff ==> !AcceptsAt(ts, text, memory, k)
        decreases |text| - tOff
      {
        var oldpoff, oldtoff := pOff, tOff;
        var ok := TryMatch();
        if ok {
          assert AcceptsAt(ts, text, memory, oldtoff);
          return true;
        }
        pOff, tOff := oldpoff, oldtoff;
        tOff := tOff + 1;
      }
      return false;
    }

    /** The loop of _ProcessBracket: collects members until a closing bracket. */
    method Collect(chars0: set<byte>) returns (chars: set<byte>, spans: set<(byte, byte)>)
      requires pOff <= |pattern|
      modifies this`pOff
      ensures old(pOff) <= pOff <= |pattern|
      ensures match Members(old(pattern[pOff..]))
              case Open => pOff == |pattern|
              case Closed(members, rest) =>
                && pOff < |pattern| && pattern[pOff] == CLOSE && rest == pattern[pOff + 1..]
                && forall c :: Collected(c, chars, spans) <==> c in chars0 || InSpans(c, members)
    {
      hide InSpans, Members;
      ghost var all := Members(pattern[pOff..]);
      chars, spans := chars0, {};
      while pOff < |pattern| && pattern[pOff] != CLOSE
        invariant old(pOff) <= pOff <= |pattern|
        invariant IsRest(all, chars0, Members(pattern[pOff..]), chars, spans)
        decreases |pattern| - pOff
      {
        ghost var p := pattern[pOff..];
        MembersStep(p);
        if pOff + 3 < |pattern| && pattern[pOff + 1] == DASH {
          var start, end := pattern[pOff], pattern[pOff + 2];
          if start == end {
            OneMore(all, chars0, p, chars, spans, chars + {start}, spans);
            chars := chars + {start};
          } else {
            if Char(start) > Char(end) {
              start, end := end, start;
            }
            OneMore(all, chars0, p, chars, spans, chars, spans + {(start, end)});
            spans := spans + {(start, end)};
          }
          pOff := pOff + 3;
          assert pattern[pOff..] == p[3..];
        } else {
          OneMore(all, chars0, p, chars, spans, chars + {pattern[pOff]}, spans);
          chars := chars + {pattern[pOff]};
          pOff := pOff + 1;
          assert pattern[pOff..] == p[1..];
        }
      }
      MembersEnd(pattern[pOff..]);
    }

    /** The first part of _ProcessBracket: reads the bracket, and stops at the one that closes it. */
    method ReadBracket() returns (positive: bool, chars: set<byte>, spans: set<(byte, byte)>)
      requires pOff + 1 < |pattern| && pattern[pOff] == OPEN
      modifies this`pOff
      ensures old(pOff) < pOff <= |pattern| && positive == !IsNegated(old(pattern[pOff..]))
      ensures match BracketOf(Behind(old(pattern[pOff..])))
              case Open => pOff == |pattern|
              case Closed(members, rest) =>
                && pOff < |pattern| && rest == pattern[pOff + 1..]
                && forall c :: Collected(c, chars, spans) <==> InSpans(c, members)
    {
      hide InSpans, Members, Collected, BracketOf;
      ghost var p := pattern[pOff..];
      pOff := pOff + 1;
      positive := true;
      if pattern[pOff] == CARET {
        positive := false;
        pOff := pOff + 1;
      }
      ghost var q := Behind(p);
      assert pattern[pOff..] == q;
      chars := {};
      if pOff < |pattern| && pattern[pOff] == CLOSE {
        chars := {CLOSE};
        pOff := pOff + 1;
      }
      assert pattern[pOff..] == if chars == {} then q else q[1..];
      ghost var chars0 := chars;
      chars, spans := Collect(chars);
      forall c: byte
        ensures BracketOf(q).Closed? ==> (InSpans(c, BracketOf(q).spans) <==> Collected(c, chars, spans))
      {
        FirstMember(c, q, chars0);
      }
      FirstMember(0, q, chars0);
    }

    /** _ProcessBracket. */
    method ProcessBracket() returns (r: bool)
      requires pOff < |pattern| && pattern[pOff] == OPEN
      modifies this`pOff, this`tOff
      ensures old(pOff) < pOff <= |pattern| || (pOff == old(pOff) && !r)
      ensures if r then Goal() == old(Goal()) else !old(Goal())
    {
      hide Accepts, Tokens, InSpans, Members, BracketOf;
      ghost var p := pattern[pOff..];
      BracketStep(p, text, memory, tOff);
      if pOff + 1 >= |pattern| {
        MembersEnd(p[1..]);
        return false;
      }
      var positive, chars, spans := ReadBracket();
      var c := At(text, memory, tOff);
      assert Collected(c, chars, spans) <==> c in chars || exists span :: span in spans && InSpan(c, span);
      if pOff == |pattern| { return false; }
      pOff := pOff + 1;
      if c in chars || exists span :: span in spans && InSpan(c, span) {
        if positive {
          tOff := tOff + 1;
          return true;
        }
        return false;
      }
      if positive { return false; }
      tOff := tOff + 1;
      return true;
    }
  }

  /** What a bracket holds is what has been collected, and what is still to come. */
  ghost predicate IsRest(all: Bracket, chars0: set<byte>, rest: Bracket, chars: set<byte>, spans: set<(byte, byte)>) {
    && all.Open? == rest.Open?
    && (all.Closed? ==>
          && all.rest == rest.rest
          && forall c :: c in chars0 || InSpans(c, all.spans) <==> Collected(c, chars, spans) || InSpans(c, rest.spans))
  }

  lemma InMore(c: byte, span: (byte, byte), spans: seq<(byte, byte)>)
    ensures InSpans(c, [span] + spans) <==> InSpan(c, span) || InSpans(c, spans)
  {
    var more := [span] + spans;
    assert InSpan(c, more[0]) <==> InSpan(c, span);
    if i :| 0 <= i < |spans| && InSpan(c, spans[i]) {
      assert InSpan(c, more[i + 1]);
    }
    if i :| 0 <= i < |more| && InSpan(c, more[i]) && i > 0 {
      assert InSpan(c, spans[i - 1]);
    }
  }

  /** The first member of a bracket. */
  function SpanOf(p: seq<byte>): (byte, byte)
    requires p != []
  {
    if !(|p| > 3 && p[1] == DASH) then (p[0], p[0]) else Span(p[0], p[2])
  }

  lemma MembersStep(p: seq<byte>)
    requires p != [] && p[0] != CLOSE
    ensures var rest := Members(if |p| > 3 && p[1] == DASH then p[3..] else p[1..]);
            && Members(p).Open? == rest.Open?
            && (rest.Closed? ==> Members(p).rest == rest.rest && Members(p).spans == [SpanOf(p)] + rest.spans)
  {
  }

  lemma MembersEnd(p: seq<byte>)
    ensures p == [] ==> Members(p) == Open && BracketOf(p) == Open
    ensures p != [] && p[0] == CLOSE ==> Members(p) == Closed([], p[1..])
    ensures forall c :: !InSpans(c, [])
  {
  }

  lemma OneMore(all: Bracket, chars0: set<byte>, p: seq<byte>, chars: set<byte>, spans: set<(byte, byte)>,
                chars': set<byte>, spans': set<(byte, byte)>)
    requires p != [] && p[0] != CLOSE
    requires IsRest(all, chars0, Members(p), chars, spans)
    requires (chars' == chars + {p[0]} && spans' == spans && SpanOf(p) == (p[0], p[0]))
             || (chars' == chars && spans' == spans + {SpanOf(p)})
    ensures IsRest(all, chars0, Members(if |p| > 3 && p[1] == DASH then p[3..] else p[1..]), chars', spans')
  {
    hide Members, InSpans;
    MembersStep(p);
    var rest := Members(if |p| > 3 && p[1] == DASH then p[3..] else p[1..]);
    forall c: byte ensures Collected(c, chars', spans') <==> Collected(c, chars, spans) || InSpan(c, SpanOf(p)) {
    }
    if rest.Closed? {
      forall c: byte ensures InSpans(c, Members(p).spans) <==> InSpan(c, SpanOf(p)) || InSpans(c, rest.spans) {
        InMore(c, SpanOf(p), rest.spans);
      }
    }
  }

  lemma FirstMember(c: byte, p: seq<byte>, chars0: set<byte>)
    requires chars0 == if p != [] && p[0] == CLOSE then {CLOSE} else {}
    ensures var m := Members(if p != [] && p[0] == CLOSE then p[1..] else p);
            && BracketOf(p).Open? == m.Open?
            && (m.Closed? ==> BracketOf(p).rest == m.rest
                              && (InSpans(c, BracketOf(p).spans) <==> c in chars0 || InSpans(c, m.spans)))
  {
    var m := Members(if p != [] && p[0] == CLOSE then p[1..] else p);
    if p != [] && p[0] == CLOSE && m.Closed? {
      InMore(c, (CLOSE, CLOSE), m.spans);
      OneMember(c, CLOSE);
    }
  }

  lemma OneMember(c: byte, d: byte)
    ensures InSpan(c, (d, d)) <==> c == d
  {
  }

  /** A bracket takes the byte at off when it is a member, or when it is none and the bracket is negated. */
  lemma BracketStep(p: seq<byte>, text: seq<byte>, memory: nat -> byte, off: nat)
    requires p != [] && p[0] == OPEN
    ensures match BracketOf(Behind(p))
            case Open => !Accepts(Tokens(p), text, memory, off)
            case Closed(spans, rest) =>
              Accepts(Tokens(p), text, memory, off)
              <==> InSpans(At(text, memory, off), spans) == !IsNegated(p)
                   && Accepts(Tokens(rest), text, memory, off + 1)
  {
    hide InSpans;
    assert BracketOf(Behind(p)).Closed? ==> Tokens(p)[1..] == Tokens(BracketOf(Behind(p)).rest);
  }

  lemma LiteralStep(p: seq<byte>, text: seq<byte>, memory: nat -> byte, off: nat)
    requires p != [] && p[0] !in {STAR, QUESTION, OPEN}
    ensures var n := if IsEscape(p) then 2 else 1;
            Accepts(Tokens(p), text, memory, off)
            <==> off < |text| && text[off] == p[n - 1] && Accepts(Tokens(p[n..]), text, memory, off + 1)
  {
    assert Tokens(p)[1..] == Tokens(p[if IsEscape(p) then 2 else 1..]);
  }

  lemma QuestionStep(p: seq<byte>, text: seq<byte>, memory: nat -> byte, off: nat)
    requires p != [] && p[0] == QUESTION
    ensures Accepts(Tokens(p), text, memory, off)
            <==> off != |text| && Accepts(Tokens(p[1..]), text, memory, off + 1)
  {
    assert Tokens(p)[1..] == Tokens(p[1..]);
  }

  lemma NoTokens(text: seq<byte>, memory: nat -> byte, off: nat)
    ensures Accepts(Tokens([]), text, memory, off) <==> off == |text|
  {
  }

  /** One more star at the front. */
  lemma StarStep(p: seq<byte>, text: seq<byte>, memory: nat -> byte, off: nat)
    requires p != [] && p[0] == STAR
    ensures var ts := [AnyString] + Tokens(p[1..]);
            && Accepts(Tokens(p), text, memory, off) == Accepts(ts, text, memory, off)
            && Accepts([AnyString] + Tokens(p), text, memory, off) == Accepts(ts, text, memory, off)
  {
    assert ([AnyString] + Tokens(p))[1..] == Tokens(p);
  }

  lemma StarChoices(p: seq<byte>, text: seq<byte>, memory: nat -> byte, off: nat)
    requires p != [] ==> p[0] != STAR
    ensures Accepts([AnyString] + Tokens(p), text, memory, off)
            <==> p == [] || exists k :: off <= k < |text| && AcceptsAt(Tokens(p), text, memory, k)
  {
    assert ([AnyString] + Tokens(p))[1..] == Tokens(p);
    if p != [] {
      assert Tokens(p) != [] && Tokens(p)[0] != AnyString;
      StarAccepts([AnyString] + Tokens(p), text, memory, off);
    }
  }

  // ----- where the matcher is right -----

  /** No bracket takes a NUL. */
  predicate KeepsOffTheEnd(ts: seq<Token>) { forall i :: 0 <= i < |ts| && ts[i].OneOf? ==> !Takes(ts[i], 0) }

  /** Then the matcher is right about every text. */
  lemma NoOverruns(ts: seq<Token>, text: seq<byte>, memory: nat -> byte, off: nat)
    requires KeepsOffTheEnd(ts) && off <= |text|
    ensures !Overruns(ts, text, memory, off)
  {
  }

  predicate IsPlain(p: seq<byte>) { forall i :: 0 <= i < |p| ==> 0 < p[i] < 128 && p[i] != CARET }

  predicate AreAscii(spans: seq<(byte, byte)>) { forall i :: 0 <= i < |spans| ==> 0 < spans[i].0 < 128 }

  lemma {:induction false} PlainMembers(p: seq<byte>)
    requires IsPlain(p)
    ensures Members(p).Closed? ==> AreAscii(Members(p).spans) && IsPlain(Members(p).rest)
    decreases |p|
  {
    if p != [] && p[0] != CLOSE {
      PlainMembers(if |p| > 3 && p[1] == DASH then p[3..] else p[1..]);
    }
  }

  lemma PlainBracket(p: seq<byte>)
    requires IsPlain(p)
    ensures BracketOf(p).Closed? ==> !InSpans(0, BracketOf(p).spans) && IsPlain(BracketOf(p).rest)
  {
    PlainMembers(p);
    if p != [] {
      PlainMembers(p[1..]);
    }
  }

  /** So it is for all patterns of bytes from 1 to 127 without a caret. */
  lemma {:induction false} PlainKeepsOff(p: seq<byte>)
    requires IsPlain(p)
    ensures KeepsOffTheEnd(Tokens(p))
    decreases |p|
  {
    hide InSpans, BracketOf;
    if p != [] {
      if p[0] == OPEN {
        PlainBracket(p[1..]);
        if BracketOf(p[1..]).Closed? {
          PlainKeepsOff(BracketOf(p[1..]).rest);
        }
      } else if IsEscape(p) {
        PlainKeepsOff(p[2..]);
      } else {
        PlainKeepsOff(p[1..]);
      }
    }
  }

  /** But "[^a]*" is found to match the empty text: the bracket takes the NUL behind it. */
  method NegatedOverruns(memory: nat -> byte) returns (r: bool)
    ensures r && !Matches(Tokens([OPEN, CARET, 97, CLOSE, STAR]), [])
  {
    hide Matches, Tokens, Passes;
    var ts := [OneOf(false, [(97, 97)]), AnyString];
    ExampleTokens();
    MatchesOne(ts, []);
    MatchesEmpty([]);
    LastStar(ts, memory);
    assert OverrunAt(ts, [], memory, 0, 0);
    var glob := new QGlobRegex([OPEN, CARET, 97, CLOSE, STAR], [], memory);
    r := glob.Match();
  }

  lemma ExampleTokens()
    ensures Tokens([OPEN, CARET, 97, CLOSE, STAR]) == [OneOf(false, [(97, 97)]), AnyString]
  {
    var p := [OPEN, CARET, 97, CLOSE, STAR];
    assert Behind(p) == [97, CLOSE, STAR] && Behind(p)[1..] == [CLOSE, STAR] && Behind(p)[1..][1..] == [STAR];
    assert Members([CLOSE, STAR]) == Closed([], [STAR]);
    assert Members([97, CLOSE, STAR]) == Closed([(97, 97)], [STAR]);
    assert Tokens([STAR]) == [AnyString] + Tokens([]);
  }

  lemma LastStar(ts: seq<Token>, memory: nat -> byte)
    requires ts == [OneOf(false, [(97, 97)]), AnyString]
    ensures Passes(ts[1..], memory, 1) && Takes(ts[0], 0) && ts[..0] == []
  {
  }
}
