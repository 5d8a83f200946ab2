/** The grammar of requests that QedisCore/QProtoParser.cc gives in its comment, and the parser's agreement with it. */
module RequestGrammar {
  import opened Bytes
  import opened Integers
  import opened QProtoParser

  // ----- the grammar -----

  predicate AreDigits(s: seq<byte>) { forall i :: 0 <= i < |s| ==> IsDigit(s[i]) }

  predicate IsSign(s: seq<byte>) { s == [] || s == [MINUS] || s == [PLUS] }

  /** The number that a sign and digits stand for, in an int. */
  function Value(sign: seq<byte>, digits: seq<byte>): int
    requires AreDigits(digits)
  {
    ToInt(if sign == [MINUS] then -Number(digits) else Number(digits))
  }

  predicate Spells(b: seq<byte>, sign: seq<byte>, digits: seq<byte>, v: int) {
    IsSign(sign) && AreDigits(digits) && b == sign + digits + [CR, LF] && v == Value(sign, digits)
  }

  /** number crlf; there may be no digit at all. */
  ghost predicate IsNumber(b: seq<byte>, v: int) { exists sign, digits :: Spells(b, sign, digits, v) }

  /** A length, and unless it is -1 as many bytes and a line end. */
  ghost predicate IsStringOf(b: seq<byte>, h: seq<byte>, n: int, text: QString) {
    && IsNumber(h, n)
    && if n == -1 then text == [] && b == [DOLLAR] + h
       else |text| == n && b == [DOLLAR] + h + text + [CR, LF]
  }

  ghost predicate IsString(b: seq<byte>, text: QString) { exists h, n :: IsStringOf(b, h, n, text) }

  ghost predicate AreStrings(b: seq<byte>, texts: seq<QString>)
    decreases |texts|
  {
    if texts == [] then b == []
    else exists k :: 0 <= k <= |b| && IsString(b[..k], texts[0]) && AreStrings(b[k..], texts[1..])
  }

  /** A count, -1 standing for none, and as many strings. */
  ghost predicate IsRequestOf(b: seq<byte>, h: seq<byte>, n: int, texts: seq<QString>) {
    && IsNumber(h, n) && n >= -1 && |texts| == (if n == -1 then 0 else n)
    && exists strings :: AreStrings(strings, texts) && b == [ASTERISK] + h + strings
  }

  ghost predicate IsRequest(b: seq<byte>, texts: seq<QString>) { exists h, n :: IsRequestOf(b, h, n, texts) }

  // ----- numbers -----

  lemma {:induction false} DigitsEndAt(s: seq<byte>, i: nat, j: nat)
    requires i <= j <= |s| && (forall k :: i <= k < j ==> IsDigit(s[k])) && (j < |s| ==> !IsDigit(s[j]))
    ensures DigitsEnd(s, i) == j
    decreases j - i
  {
    if i < j {
      DigitsEndAt(s, i + 1, j);
    }
  }

  lemma NumberParses(b: seq<byte>, v: int, tail: seq<byte>)
    requires IsNumber(b, v) && |b + tail| >= 3
    ensures GetIntUntilCRLF(b + tail) == IntOk(v, |b|)
  {
    hide Number, ToInt;
    var sign, digits :| Spells(b, sign, digits, v);
    var s, i, j := b + tail, |sign|, |sign| + |digits|;
    assert s[i..j] == digits && s[j] == CR && s[j + 1] == LF;
    assert forall k :: i <= k < j ==> s[k] == digits[k - i];
    assert digits != [] ==> s[i] == digits[0];
    DigitsEndAt(s, i, j);
  }

  lemma ParsedNumber(s: seq<byte>)
    requires GetIntUntilCRLF(s).IntOk? && GetIntUntilCRLF(s).used <= |s|
    ensures IsNumber(s[..GetIntUntilCRLF(s).used], GetIntUntilCRLF(s).val)
  {
    hide Number, ToInt;
    var i := if s[0] == MINUS || s[0] == PLUS then 1 else 0;
    var j := DigitsEnd(s, i);
    assert forall k :: 0 <= k < j - i ==> s[i..j][k] == s[i + k];
    assert s[..j + 2] == s[..i] + s[i..j] + [CR, LF];
    assert Spells(s[..j + 2], s[..i], s[i..j], GetIntUntilCRLF(s).val);
  }

  /** A sign, digits, and something else than a line end. */
  predicate IsBad(s: seq<byte>, sign: seq<byte>, digits: seq<byte>) {
    var j := |sign| + |digits|;
    && IsSign(sign) && AreDigits(digits) && |s| >= 3 && j < |s| && s[..j] == sign + digits
    && !IsDigit(s[j]) && (j == 0 ==> s[0] != MINUS && s[0] != PLUS)
    && (s[j] != CR || (j + 1 < |s| && s[j + 1] != LF))
  }

  ghost predicate IsBadNumber(s: seq<byte>) { exists sign, digits :: IsBad(s, sign, digits) }

  lemma BadNumberIs(s: seq<byte>)
    ensures GetIntUntilCRLF(s) == IntError <==> IsBadNumber(s)
  {
    hide GetIntUntilCRLF, IsBad;
    if IsBadNumber(s) {
      var sign, digits :| IsBad(s, sign, digits);
      BadFails(s, sign, digits);
    }
    if GetIntUntilCRLF(s) == IntError {
      FailsBadly(s);
    }
  }

  lemma BadFails(s: seq<byte>, sign: seq<byte>, digits: seq<byte>)
    requires IsBad(s, sign, digits)
    ensures GetIntUntilCRLF(s) == IntError
  {
    hide Number, ToInt;
    var i, j := |sign|, |sign| + |digits|;
    assert forall k :: 0 <= k < j ==> s[k] == s[..j][k];
    assert forall k :: i <= k < j ==> s[k] == digits[k - i];
    DigitsEndAt(s, i, j);
  }

  lemma FailsBadly(s: seq<byte>)
    requires GetIntUntilCRLF(s) == IntError
    ensures IsBadNumber(s)
  {
    hide Number, ToInt;
    var i := if s[0] == MINUS || s[0] == PLUS then 1 else 0;
    var j := DigitsEnd(s, i);
    assert forall k :: 0 <= k < j - i ==> s[i..j][k] == s[i + k];
    assert s[..j] == s[..i] + s[i..j];
    assert IsBad(s, s[..i], s[i..j]);
  }

  /** Only a number with a sign or a digit can be -1. */
  lemma LongEnough(b: seq<byte>, v: int)
    requires IsNumber(b, v)
    ensures |b| >= 2 && (v != 0 ==> |b| >= 3)
  {
  }

  // ----- strings -----

  /** A dollar sign and a number. */
  lemma LengthParses(h: seq<byte>, n: int, after: seq<byte>)
    requires IsNumber(h, n) && |h + after| >= 3
    ensures var s := [DOLLAR] + h + after; ParseStrlen(s) == IntOk(n, |h| + 1) && Rest(s, |h| + 1) == after
  {
    hide GetIntUntilCRLF, IsNumber;
    var s := [DOLLAR] + h + after;
    assert s[1..] == h + after && s[|h| + 1..] == after;
    NumberParses(h, n, after);
  }

  lemma StringParses(b: seq<byte>, text: QString, tail: seq<byte>)
    requires IsString(b, text)
    ensures ParseStr(-1, b + tail) == StrOk(text, |b|) && b != []
  {
    hide ParseStrlen, IsNumber;
    var h, n :| IsStringOf(b, h, n, text);
    LongEnough(h, n);
    if n == -1 {
      LengthParses(h, n, tail);
    } else {
      var after := text + [CR, LF] + tail;
      AppendAssociates([DOLLAR] + h, text, [CR, LF]);
      AppendAssociates([DOLLAR] + h, text + [CR, LF], tail);
      LengthParses(h, n, after);
      assert after[..n] == text && after[n] == CR && after[n + 1] == LF;
    }
  }

  lemma ParsedString(s: seq<byte>)
    requires ParseStr(-1, s).StrOk? && ParseStr(-1, s).used <= |s|
    ensures IsString(s[..ParseStr(-1, s).used], ParseStr(-1, s).text)
  {
    hide GetIntUntilCRLF, IsNumber;
    var r, len := ParseStr(-1, s), ParseStrlen(s);
    ParsedNumber(s[1..]);
    var h, n := s[1..len.used], len.val;
    assert s[1..][..len.used - 1] == h;
    if n == -1 {
      assert s[..r.used] == [DOLLAR] + h;
    } else {
      var after := Rest(s, len.used);
      assert s[..r.used] == [DOLLAR] + h + after[..n] + [CR, LF];
    }
    assert IsStringOf(s[..r.used], h, n, r.text);
  }

  /** A string that is no string, whatever follows: no dollar sign, a bad length, one below -1, or no line end behind
      the text. */
  ghost predicate IsBadString(s: seq<byte>) {
    || (|s| >= 3 && s[0] != DOLLAR)
    || (|s| >= 4 && s[0] == DOLLAR && IsBadNumber(s[1..]))
    || (exists h, n, tail :: IsBadLength(s, h, n, tail))
    || (exists h, text, end, tail :: LacksLineEnd(s, h, text, end, tail))
  }

  ghost predicate IsBadLength(s: seq<byte>, h: seq<byte>, n: int, tail: seq<byte>) {
    IsNumber(h, n) && n < -1 && s == [DOLLAR] + h + tail
  }

  ghost predicate LacksLineEnd(s: seq<byte>, h: seq<byte>, text: QString, end: seq<byte>, tail: seq<byte>) {
    IsNumber(h, |text|) && |end| == 2 && end != [CR, LF] && s == [DOLLAR] + h + text + end + tail
  }

  lemma BadStringFails(s: seq<byte>)
    requires IsBadString(s)
    ensures ParseStr(-1, s) == StrError
  {
    hide GetIntUntilCRLF, IsNumber;
    if |s| >= 3 && s[0] != DOLLAR {
    } else if |s| >= 4 && s[0] == DOLLAR && IsBadNumber(s[1..]) {
      BadNumberIs(s[1..]);
    } else if h, n, tail :| IsBadLength(s, h, n, tail) {
      LongEnough(h, n);
      LengthParses(h, n, tail);
    } else {
      var h, text, end, tail :| LacksLineEnd(s, h, text, end, tail);
      NoLineEnd(h, text, end, tail);
    }
  }

  lemma NoLineEnd(h: seq<byte>, text: QString, end: seq<byte>, tail: seq<byte>)
    requires IsNumber(h, |text|) && |end| == 2 && end != [CR, LF]
    ensures ParseStr(-1, [DOLLAR] + h + text + end + tail) == StrError
  {
    hide ParseStrlen, IsNumber;
    LongEnough(h, |text|);
    var after := text + end + tail;
    assert [DOLLAR] + h + text + end + tail == [DOLLAR] + h + after;
    LengthParses(h, |text|, after);
    assert after[|text|] == end[0] && after[|text| + 1] == end[1];
  }

  // ----- lists of strings -----

  function Listed(p: Parser, texts: seq<QString>): seq<QString>
    requires p.numOfParam <= |p.params|
  {
    p.params[..p.numOfParam] + texts
  }

  function Next(p: Parser, text: QString): Parser
  {
    Parser(p.multi, -1, p.numOfParam + 1, Grown(p)[p.numOfParam := text])
  }

  lemma NextListed(p: Parser, texts: seq<QString>)
    requires p.numOfParam <= |p.params| && texts != []
    ensures var q := Next(p, texts[0]);
            q.numOfParam <= |q.params| && Listed(q, texts[1..]) == Listed(p, texts)
  {
    var q := Next(p, texts[0]);
    assert q.params[..q.numOfParam] == p.params[..p.numOfParam] + [texts[0]];
    AppendAssociates(p.params[..p.numOfParam], [texts[0]], texts[1..]);
    assert [texts[0]] + texts[1..] == texts;
  }

  lemma AllListed(p: Parser)
    requires p.numOfParam <= |p.params|
    ensures Listed(p, []) == Resize(p.params, p.numOfParam)
  {
  }

  lemma {:induction false} StringsParse(p: Parser, b: seq<byte>, texts: seq<QString>, tail: seq<byte>)
    requires p.paramLen == -1 && p.numOfParam <= |p.params| && p.multi == p.numOfParam + |texts|
    requires AreStrings(b, texts)
    ensures ParseStrlist(p, b + tail) == Result(true, Parser(p.multi, -1, p.multi, Listed(p, texts)), |b|)
    decreases |texts|
  {
    hide ParseStrlist, ParseStr, Resize, Listed, Next, IsString;
    if texts == [] {
      NoParams(p, b + tail);
      AllListed(p);
    } else {
      var k := FirstString(b, texts);
      assert b + tail == b[..k] + (b[k..] + tail);
      StringParses(b[..k], texts[0], b[k..] + tail);
      ListStep(p, b + tail);
      AppendPrefix(b[..k], b[k..] + tail);
      NextListed(p, texts);
      NextIs(p, texts[0]);
      StringsParse(Next(p, texts[0]), b[k..], texts[1..], tail);
    }
  }

  lemma NextIs(p: Parser, text: QString)
    ensures Next(p, text) == Parser(p.multi, -1, p.numOfParam + 1, Grown(p)[p.numOfParam := text])
  {
  }

  lemma FirstString(b: seq<byte>, texts: seq<QString>) returns (k: nat)
    requires AreStrings(b, texts) && texts != []
    ensures k <= |b| && IsString(b[..k], texts[0]) && AreStrings(b[k..], texts[1..])
  {
    k :| 0 <= k <= |b| && IsString(b[..k], texts[0]) && AreStrings(b[k..], texts[1..]);
  }

  lemma {:induction false} ParsedStrings(p: Parser, s: seq<byte>) returns (texts: seq<QString>)
    requires p.paramLen == -1 && p.numOfParam <= |p.params|
    requires var o := ParseStrlist(p, s); o.Result? && o.ok && o.used <= |s|
    ensures |texts| == if p.numOfParam < p.multi then p.multi - p.numOfParam else 0
    ensures AreStrings(s[..ParseStrlist(p, s).used], texts) && ParseStrlist(p, s).parser.params == Listed(p, texts)
    decreases p.multi - p.numOfParam
  {
    hide ParseStrlist, ParseStr, Resize, Listed, Next, IsString;
    if p.numOfParam >= p.multi {
      NoParams(p, s);
      AllListed(p);
      texts := [];
    } else {
      ListStep(p, s);
      var r, used := ParseStr(-1, s), ParseStrlist(p, s).used;
      NextIs(p, r.text);
      ParsedString(s);
      NextListed(p, [r.text]);
      texts := ParsedStrings(Next(p, r.text), s[r.used..]);
      texts := [r.text] + texts;
      NextListed(p, texts);
      assert s[..used][..r.used] == s[..r.used] && s[..used][r.used..] == s[r.used..][..used - r.used];
    }
  }

  lemma {:induction false} StringsFail(p: Parser, b: seq<byte>, texts: seq<QString>, bad: seq<byte>)
    requires p.paramLen == -1 && p.numOfParam <= |p.params| && p.multi > p.numOfParam + |texts|
    requires AreStrings(b, texts) && IsBadString(bad)
    ensures ParseStrlist(p, b + bad) == Error
    decreases |texts|
  {
    hide ParseStrlist, ParseStr, Resize, Listed, Next, IsString, IsBadString;
    if texts == [] {
      assert b + bad == bad;
      BadStringFails(bad);
      ListStep(p, bad);
    } else {
      var k := FirstString(b, texts);
      assert b + bad == b[..k] + (b[k..] + bad);
      StringParses(b[..k], texts[0], b[k..] + bad);
      ListStep(p, b + bad);
      AppendPrefix(b[..k], b[k..] + bad);
      NextListed(p, texts);
      NextIs(p, texts[0]);
      StringsFail(Next(p, texts[0]), b[k..], texts[1..], bad);
    }
  }

  // ----- requests -----

  /** Between two requests. */
  predicate IsIdle(p: Parser) { p.multi == -1 && p.paramLen == -1 && p.numOfParam == 0 }

  lemma CountParses(p: Parser, h: seq<byte>, n: int, tail: seq<byte>)
    requires IsIdle(p) && IsNumber(h, n) && |h + tail| >= 3
    ensures var s := [ASTERISK] + h + tail;
            ParseRequest(p, s) == if n < -1 then Error else LaterBy(ParseStrlist(p.(multi := n), tail), |h| + 1)
  {
    hide ParseStrlist, GetIntUntilCRLF, IsNumber;
    var s := [ASTERISK] + h + tail;
    assert s[1..] == h + tail && s[|h| + 1..] == tail;
    NumberParses(h, n, tail);
  }

  lemma RequestParses(p: Parser, b: seq<byte>, texts: seq<QString>, tail: seq<byte>)
    requires IsIdle(p) && IsRequest(b, texts) && |b + tail| >= 4
    ensures var o := ParseRequest(p, b + tail); o.Result? && o.ok && o.used == |b| && o.parser.params == texts
  {
    hide ParseStrlist, ParseRequest, IsNumber, AreStrings;
    var h, n :| IsRequestOf(b, h, n, texts);
    var strings :| AreStrings(strings, texts) && b == [ASTERISK] + h + strings;
    assert b + tail == [ASTERISK] + h + (strings + tail);
    CountParses(p, h, n, strings + tail);
    var q := p.(multi := n);
    assert Listed(q, texts) == texts;
    if n == -1 {
      NoStrings(strings, texts);
      NoParams(q, strings + tail);
    } else {
      StringsParse(q, strings, texts, tail);
    }
  }

  lemma NoStrings(b: seq<byte>, texts: seq<QString>)
    requires AreStrings(b, texts) && texts == []
    ensures b == []
  {
  }

  lemma ParsedRequest(p: Parser, s: seq<byte>) returns (texts: seq<QString>)
    requires IsIdle(p)
    requires var o := ParseRequest(p, s); o.Result? && o.ok && o.used <= |s|
    ensures IsRequest(s[..ParseRequest(p, s).used], texts) && ParseRequest(p, s).parser.params == texts
  {
    hide ParseStrlist, GetIntUntilCRLF, IsNumber, AreStrings;
    var o, r := ParseRequest(p, s), GetIntUntilCRLF(s[1..]);
    var n, used := r.val, r.used + 1;
    var q := p.(multi := n);
    assert Rest(s, used) == s[used..];
    ParsedNumber(s[1..]);
    var h := s[1..used];
    assert s[1..][..r.used] == h;
    texts := ParsedStrings(q, s[used..]);
    assert Listed(q, texts) == texts;
    var strings := s[used..o.used];
    assert s[used..][..o.used - used] == strings;
    assert s[..o.used] == [ASTERISK] + h + strings;
    assert IsRequestOf(s[..o.used], h, n, texts);
  }

  /** The parser accepts exactly the requests of the grammar, with their strings, and uses up exactly their bytes. */
  lemma AcceptedIff(p: Parser, s: seq<byte>, used: nat, texts: seq<QString>)
    requires IsIdle(p) && |s| >= 4 && used <= |s|
    ensures var o := ParseRequest(p, s);
            o.Result? && o.ok && o.used == used && o.parser.params == texts <==> IsRequest(s[..used], texts)
  {
    hide ParseRequest, IsRequest;
    var o := ParseRequest(p, s);
    if IsRequest(s[..used], texts) {
      assert s[..used] + s[used..] == s;
      RequestParses(p, s[..used], texts, s[used..]);
    }
    if o.Result? && o.ok && o.used == used {
      var _ := ParsedRequest(p, s);
    }
  }

  /** What is refused: no asterisk, a bad count, one below -1, or a bad string where the count demands one more. */
  lemma Refused(p: Parser, s: seq<byte>, h: seq<byte>, n: int, b: seq<byte>, texts: seq<QString>, bad: seq<byte>)
    requires IsIdle(p) && |s| >= 4
    ensures s[0] != ASTERISK ==> ParseRequest(p, s) == Error
    ensures s[0] == ASTERISK && IsBadNumber(s[1..]) ==> ParseRequest(p, s) == Error
    ensures IsNumber(h, n) && n < -1 ==> ParseRequest(p, [ASTERISK] + h + b) == Error
    ensures IsNumber(h, n) && AreStrings(b, texts) && |texts| < n && IsBadString(bad) ==>
              ParseRequest(p, [ASTERISK] + h + (b + bad)) == Error
  {
    hide ParseStrlist, GetIntUntilCRLF, IsNumber, AreStrings, IsBadString;
    BadNumberIs(s[1..]);
    if IsNumber(h, n) && n != 0 {
      LongEnough(h, n);
      hide ParseRequest;
      CountParses(p, h, n, b);
      CountParses(p, h, n, b + bad);
      if n > |texts| && AreStrings(b, texts) && IsBadString(bad) {
        StringsFail(p.(multi := n), b, texts, bad);
      }
    }
  }
}
