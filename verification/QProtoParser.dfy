/** The request parser: QedisCore/QProtoParser.cc, and GetIntUntilCRLF of QedisCore/QCommon.cc. s stands for the bytes
    from ptr to end; used says how far ptr moves. */
module QProtoParser {
  import opened Bytes
  import opened Integers

  type QString = seq<byte>

  const CR: byte := 13
  const LF: byte := 10
  const ASTERISK: byte := 42
  const DOLLAR: byte := 36

  // ----- integers -----

  datatype IntResult = IntError | IntWait | IntOk(val: int, used: nat)

  predicate IsDigit(b: byte) { 48 <= b <= 57 }

  /** The first byte from i on that is not a digit. */
  function DigitsEnd(s: seq<byte>, i: nat): (j: nat)
    requires i <= |s|
    ensures i <= j <= |s| && (forall k :: i <= k < j ==> IsDigit(s[k])) && (j < |s| ==> !IsDigit(s[j]))
    decreases |s| - i
  {
    if i < |s| && IsDigit(s[i]) then DigitsEnd(s, i + 1) else i
  }

  function Number(s: seq<byte>): int
    requires forall k :: 0 <= k < |s| ==> IsDigit(s[k])
  {
    if s == [] then 0 else Number(s[..|s| - 1]) * 10 + (s[|s| - 1] - ZERO)
  }

  /** GetIntUntilCRLF; without a line end in sight it takes the digits there are, and steps over two more bytes. */
  function GetIntUntilCRLF(s: seq<byte>): IntResult {
    if |s| < 3 then IntWait
    else
      var i := if s[0] == MINUS || s[0] == PLUS then 1 else 0;
      var j := DigitsEnd(s, i);
      if j < |s| && (s[j] != CR || (j + 1 < |s| && s[j + 1] != LF)) then IntError
      else if j + 1 == |s| then IntWait
      else IntOk(ToInt(if s[0] == MINUS then -Number(s[i..j]) else Number(s[i..j])), j + 2)
  }

  // ----- what a parse does -----

  datatype Parser = Parser(multi: int, paramLen: int, numOfParam: nat, params: seq<QString>)

  function Initial(): Parser { Parser(-1, -1, 0, []) }

  datatype Str = StrError | StrWait(paramLen: int, used: nat) | StrOk(text: QString, used: nat)

  /** An error, or ok or wait with the new state. */
  datatype Outcome = Error | Result(ok: bool, parser: Parser, used: nat)

  /** The bytes left once ptr has moved; none when it has moved too far. */
  function Rest(s: seq<byte>, used: nat): seq<byte> { if used <= |s| then s[used..] else [] }

  /** _ParseStrlen; on anything but success ptr stays. */
  function ParseStrlen(s: seq<byte>): IntResult {
    if |s| < 3 then IntWait
    else if s[0] != DOLLAR then IntError
    else match GetIntUntilCRLF(s[1..])
      case IntOk(val, used) => IntOk(val, used + 1)
      case r => r
  }

  /** _ParseStrval. */
  function ParseStrval(paramLen: nat, s: seq<byte>): Str {
    if |s| < paramLen + 2 then StrWait(paramLen, 0)
    else if s[paramLen] != CR || s[paramLen + 1] != LF then StrError
    else StrOk(s[..paramLen], paramLen + 2)
  }

  function Later(r: Str, used: nat): Str {
    match r
    case StrError => StrError
    case StrWait(n, u) => StrWait(n, used + u)
    case StrOk(text, u) => StrOk(text, used + u)
  }

  /** _ParseStr. */
  function ParseStr(paramLen: int, s: seq<byte>): Str
    requires paramLen >= -1
  {
    if paramLen >= 0 then ParseStrval(paramLen, s)
    else match ParseStrlen(s)
      case IntError => StrError
      case IntWait => StrWait(-1, 0)
      case IntOk(val, used) =>
        if val < -1 then StrError
        else if val == -1 then StrOk([], used)
        else Later(ParseStrval(val, Rest(s, used)), used)
  }

  function Resize(v: seq<QString>, n: nat): (r: seq<QString>)
    ensures |r| == n && forall i :: 0 <= i < n && i < |v| ==> r[i] == v[i]
  {
    if |v| >= n then v[..n] else v + seq(n - |v|, _ => [])
  }

  function LaterBy(o: Outcome, used: nat): Outcome {
    if o == Error then Error else o.(used := used + o.used)
  }

  /** _ParseStrlist. */
  function ParseStrlist(p: Parser, s: seq<byte>): Outcome
    requires p.paramLen >= -1
    decreases p.multi - p.numOfParam
  {
    var n := p.numOfParam;
    if n >= p.multi then Result(true, p.(params := Resize(p.params, n)), 0)
    else
      var grown := if |p.params| < n + 1 then Resize(p.params, n + 1) else p.params;
      match ParseStr(p.paramLen, s)
      case StrError => Error
      case StrWait(len, used) => Result(false, p.(paramLen := len, params := grown), used)
      case StrOk(text, used) => LaterBy(ParseStrlist(Parser(p.multi, -1, n + 1, grown[n := text]), Rest(s, used)), used)
  }

  /** ParseRequest; when the number of parameters is not there yet, the asterisk before it is lost. */
  function ParseRequest(p: Parser, s: seq<byte>): Outcome
    requires p.paramLen >= -1
  {
    if p.multi != -1 then ParseStrlist(p, s)
    else if |s| < 3 then Result(false, p, 0)
    else if s[0] != ASTERISK then Error
    else match GetIntUntilCRLF(s[1..])
      case IntError => Error
      case IntWait => Result(false, p, 1)
      case IntOk(val, used) =>
        if val < -1 then Error else LaterBy(ParseStrlist(p.(multi := val), Rest(s, used + 1)), used + 1)
  }

  /** A wait that shows that the parser has stepped over the asterisk: no request has begun, but ptr has moved. */
  predicate AsteriskLost(o: Outcome) { o.Result? && !o.ok && o.parser.multi == -1 && o.used > 0 }

  /** A wait from which the parser can go on: ptr has not moved behind the end, and no asterisk is lost. */
  predicate CanGoOn(o: Outcome, size: nat) { o.Result? && !o.ok && o.used <= size && !AsteriskLost(o) }

  // ----- a request in pieces -----

  lemma {:induction false} DigitsEndMore(s: seq<byte>, t: seq<byte>, i: nat)
    requires i <= |s| && DigitsEnd(s, i) < |s|
    ensures DigitsEnd(s + t, i) == DigitsEnd(s, i)
    decreases |s| - i
  {
    if IsDigit(s[i]) {
      DigitsEndMore(s, t, i + 1);
    }
  }

  /** A number that is complete does not depend on what follows. */
  lemma IntMore(s: seq<byte>, t: seq<byte>)
    requires GetIntUntilCRLF(s).IntOk? && GetIntUntilCRLF(s).used <= |s|
    ensures GetIntUntilCRLF(s + t) == GetIntUntilCRLF(s)
  {
    var i := if s[0] == MINUS || s[0] == PLUS then 1 else 0;
    DigitsEndMore(s, t, i);
    assert (s + t)[i..DigitsEnd(s, i)] == s[i..DigitsEnd(s, i)];
  }

  lemma StrlenMore(s: seq<byte>, t: seq<byte>)
    requires ParseStrlen(s).IntOk? && ParseStrlen(s).used <= |s|
    ensures ParseStrlen(s + t) == ParseStrlen(s)
  {
    assert (s + t)[1..] == s[1..] + t;
    IntMore(s[1..], t);
  }

  lemma StrvalMore(n: nat, s: seq<byte>, t: seq<byte>)
    requires ParseStrval(n, s).StrOk?
    ensures ParseStrval(n, s + t) == ParseStrval(n, s) && ParseStrval(n, s).used <= |s|
  {
    assert (s + t)[..n] == s[..n];
  }

  lemma RestMore(s: seq<byte>, t: seq<byte>, used: nat)
    requires used <= |s|
    ensures Rest(s + t, used) == Rest(s, used) + t
  {
  }

  lemma RestLater(s: seq<byte>, t: seq<byte>, used: nat, more: nat)
    requires used <= |s|
    ensures Rest(s + t, used + more) == Rest(Rest(s, used) + t, more)
  {
    RestMore(s, t, used);
  }

  lemma RestTwice(s: seq<byte>, a: nat, b: nat)
    requires a <= |s| && b <= |Rest(s, a)|
    ensures Rest(s, a + b) == Rest(Rest(s, a), b)
  {
  }

  lemma StrOkMore(paramLen: int, s: seq<byte>, t: seq<byte>)
    requires paramLen >= -1 && ParseStr(paramLen, s).StrOk? && ParseStr(paramLen, s).used <= |s|
    ensures ParseStr(paramLen, s + t) == ParseStr(paramLen, s)
  {
    if paramLen >= 0 {
      StrvalMore(paramLen, s, t);
    } else {
      StrlenMore(s, t);
      var r := ParseStrlen(s);
      RestMore(s, t, r.used);
      if r.val >= 0 {
        StrvalMore(r.val, Rest(s, r.used), t);
      }
    }
  }

  /** A string that is not complete goes on where the parser stopped. */
  lemma StrWaitMore(paramLen: int, s: seq<byte>, t: seq<byte>)
    requires paramLen >= -1 && ParseStr(paramLen, s).StrWait? && ParseStr(paramLen, s).used <= |s|
    ensures var r := ParseStr(paramLen, s);
            r.paramLen >= -1 && ParseStr(paramLen, s + t) == Later(ParseStr(r.paramLen, Rest(s, r.used) + t), r.used)
  {
    if paramLen == -1 && ParseStrlen(s).IntOk? {
      StrlenMore(s, t);
      RestMore(s, t, ParseStrlen(s).used);
    } else {
      assert Rest(s, 0) == s;
    }
  }

  function Grown(p: Parser): seq<QString> {
    if |p.params| < p.numOfParam + 1 then Resize(p.params, p.numOfParam + 1) else p.params
  }

  /** One string of the list. */
  lemma ListStep(p: Parser, s: seq<byte>)
    requires p.paramLen >= -1 && p.numOfParam < p.multi
    ensures match ParseStr(p.paramLen, s)
            case StrError => ParseStrlist(p, s) == Error
            case StrWait(len, used) =>
              ParseStrlist(p, s) == Result(false, p.(paramLen := len, params := Grown(p)), used)
            case StrOk(text, used) =>
              var next := Parser(p.multi, -1, p.numOfParam + 1, Grown(p)[p.numOfParam := text]);
              ParseStrlist(p, s) == LaterBy(ParseStrlist(next, Rest(s, used)), used)
  {
    hide ParseStr, Resize;
  }

  /** A list that stops while a string is not complete goes on with that string. */
  lemma ListWaits(p: Parser, s: seq<byte>, t: seq<byte>)
    requires p.paramLen >= -1 && p.numOfParam < p.multi
    requires ParseStr(p.paramLen, s).StrWait? && ParseStr(p.paramLen, s).used <= |s|
    ensures var r := ParseStr(p.paramLen, s);
            && r.paramLen >= -1
            && var p' := p.(paramLen := r.paramLen, params := Grown(p));
               ParseStrlist(p, s + t) == LaterBy(ParseStrlist(p', Rest(s, r.used) + t), r.used)
  {
    hide ParseStrlist, ParseStr, Resize;
    var r := ParseStr(p.paramLen, s);
    StrWaitMore(p.paramLen, s, t);
    var p', rest := p.(paramLen := r.paramLen, params := Grown(p)), Rest(s, r.used) + t;
    ListStep(p, s + t);
    ListStep(p', rest);
    assert Grown(p') == Grown(p);
    var again := ParseStr(r.paramLen, rest);
    if again.StrOk? {
      RestLater(s, t, r.used, again.used);
    }
  }

  lemma {:induction false} ListMore(p: Parser, s: seq<byte>, t: seq<byte>)
    requires p.paramLen >= -1
    requires var o := ParseStrlist(p, s); o.Result? && !o.ok && o.used <= |s|
    ensures var o := ParseStrlist(p, s);
            && o.parser.paramLen >= -1 && o.parser.multi == p.multi
            && ParseStrlist(p, s + t) == LaterBy(ParseStrlist(o.parser, Rest(s, o.used) + t), o.used)
    decreases p.multi - p.numOfParam
  {
    hide ParseStrlist, ParseStr, Resize;
    var n, r := p.numOfParam, ParseStr(p.paramLen, s);
    if n >= p.multi {
      NoParams(p, s);
    } else {
      ListStep(p, s);
      if r.StrWait? {
        ListWaits(p, s, t);
      } else {
        StrOkMore(p.paramLen, s, t);
        ListStep(p, s + t);
        RestMore(s, t, r.used);
        var next := Parser(p.multi, -1, n + 1, Grown(p)[n := r.text]);
        ListMore(next, Rest(s, r.used), t);
        RestTwice(s, r.used, ParseStrlist(next, Rest(s, r.used)).used);
      }
    }
  }

  lemma NoParams(p: Parser, s: seq<byte>)
    requires p.paramLen >= -1 && p.numOfParam >= p.multi
    ensures ParseStrlist(p, s) == Result(true, p.(params := Resize(p.params, p.numOfParam)), 0)
  {
  }

  /** Parsing can stop and go on with more bytes: the result is that of parsing all of them at once. This holds for any
      bytes at all after a wait that leaves ptr inside the buffer and has not lost an asterisk. */
  lemma RequestResumes(p: Parser, s: seq<byte>, t: seq<byte>)
    requires p.paramLen >= -1
    requires CanGoOn(ParseRequest(p, s), |s|)
    ensures var o := ParseRequest(p, s);
            && o.parser.paramLen >= -1
            && ParseRequest(p, s + t) == LaterBy(ParseRequest(o.parser, Rest(s, o.used) + t), o.used)
  {
    hide ParseStrlist, GetIntUntilCRLF;
    var o := ParseRequest(p, s);
    if p.multi != -1 {
      ListMore(p, s, t);
    } else if |s| < 3 {
      assert Rest(s, 0) == s;
    } else {
      var r := GetIntUntilCRLF(s[1..]);
      ShortInt(s[1..]);
      assert (s + t)[1..] == s[1..] + t;
      IntMore(s[1..], t);
      var q, rest := p.(multi := r.val), Rest(s, r.used + 1);
      RestMore(s, t, r.used + 1);
      if r.val == -1 {
        NoParams(q, rest);
      } else {
        ListMore(q, rest, t);
        RestTwice(s, r.used + 1, ParseStrlist(q, rest).used);
      }
    }
  }

  lemma ShortInt(s: seq<byte>)
    ensures GetIntUntilCRLF(s).IntOk? ==> |s| >= 3
  {
  }

  lemma {:induction false} ListKeeps(p: Parser, s: seq<byte>)
    requires p.paramLen >= -1
    ensures var o := ParseStrlist(p, s); o.Result? ==> o.parser.multi == p.multi && (!o.ok ==> o.parser.paramLen >= -1)
    decreases p.multi - p.numOfParam
  {
    hide ParseStrlist, Resize;
    if p.numOfParam >= p.multi {
      NoParams(p, s);
    } else {
      ListStep(p, s);
      var r := ParseStr(p.paramLen, s);
      if r.StrOk? {
        ListKeeps(Parser(p.multi, -1, p.numOfParam + 1, Grown(p)[p.numOfParam := r.text]), Rest(s, r.used));
      }
    }
  }

  lemma WaitKeeps(p: Parser, s: seq<byte>)
    requires p.paramLen >= -1 && ParseRequest(p, s).Result? && !ParseRequest(p, s).ok
    ensures ParseRequest(p, s).parser.paramLen >= -1
  {
    hide ParseStrlist;
    if p.multi != -1 {
      ListKeeps(p, s);
    } else if |s| >= 3 && GetIntUntilCRLF(s[1..]).IntOk? {
      var r := GetIntUntilCRLF(s[1..]);
      ListKeeps(p.(multi := r.val), Rest(s, r.used + 1));
    }
  }

  /** Parse after parse: the bytes that are not used up stay in the buffer, and the next piece goes behind them. It ends
      when ptr has moved behind the end, as the buffer has no such bytes to take out. */
  function Feed(p: Parser, kept: seq<byte>, pieces: seq<seq<byte>>): Outcome
    requires p.paramLen >= -1 && pieces != []
    decreases |pieces|
  {
    var s := kept + pieces[0];
    var o := ParseRequest(p, s);
    if |pieces| == 1 || o == Error || o.ok || o.used > |s| then o
    else
      WaitKeeps(p, s);
      LaterBy(Feed(o.parser, Rest(s, o.used), pieces[1..]), o.used)
  }

  // ----- the object -----

  class QProtoParser {
    var multi: int
    var paramLen: int
    var numOfParam: nat
    var params: seq<QString>

    function Abstract(): Parser
      reads this
    {
      Parser(multi, paramLen, numOfParam, params)
    }

    constructor ()
      ensures Abstract() == Initial()
    {
      multi, paramLen, numOfParam, params := -1, -1, 0, [];
    }

    method Reset()
      modifies this
      ensures Abstract() == Fresh(old(Abstract())) && |params| <= 3
    {
      multi, paramLen, numOfParam := -1, -1, 0;
      while |params| > 3
        invariant multi == -1 && paramLen == -1 && numOfParam == 0
        invariant |params| <= |old(params)| && params == old(params)[..|params|]
        invariant |old(params)| > 3 ==> |params| >= 3
        invariant |old(params)| <= 3 ==> params == old(params)
        decreases |params|
      {
        params := params[..|params| - 1];
      }
    }

    /** _ParseStr; ok is false for wait, and r says which of the three it is. */
    method ParseString(s: seq<byte>) returns (r: Str)
      requires paramLen >= -1
      modifies this`paramLen
      ensures r == ParseStr(old(paramLen), s)
      ensures paramLen == match r case StrWait(n, _) => n case StrOk(_, _) => -1 case StrError => paramLen
    {
      var used := 0;
      if paramLen == -1 {
        var len := ParseStrlen(s);
        if len == IntError || (len.IntOk? && len.val < -1) { return StrError; }
        if len == IntWait { return StrWait(-1, 0); }
        paramLen, used := len.val, len.used;
      }
      if paramLen == -1 {
        return StrOk([], used);
      }
      r := ParseValue(Rest(s, used));
      r := Later(r, used);
    }

    /** _ParseStrval. */
    method ParseValue(s: seq<byte>) returns (r: Str)
      requires paramLen >= 0
      modifies this`paramLen
      ensures r == ParseStrval(old(paramLen), s)
      ensures paramLen == if r.StrOk? then -1 else old(paramLen)
    {
      if |s| < paramLen + 2 { return StrWait(paramLen, 0); }
      var tail := paramLen;
      if s[tail] != CR || s[tail + 1] != LF { return StrError; }
      paramLen := -1;
      return StrOk(s[..tail], tail + 2);
    }

    /** _ParseStrlist. */
    method ParseList(s: seq<byte>) returns (r: QParseResult, used: nat)
      requires paramLen >= -1
      modifies this
      ensures match ParseStrlist(old(Abstract()), s)
              case Error => r == ParseError
              case Result(ok, p, u) => r == (if ok then ParseOk else ParseWait) && Abstract() == p && used == u
    {
      hide ParseStrlist, ParseStr, Resize;
      used := 0;
      var rest := s;
      ghost var whole := ParseStrlist(Abstract(), s);
      while numOfParam < multi
        invariant paramLen >= -1 && multi == old(multi)
        invariant whole == LaterBy(ParseStrlist(Abstract(), rest), used)
        decreases multi - numOfParam
      {
        ListStep(Abstract(), rest);
        if |params| < numOfParam + 1 {
          params := Resize(params, numOfParam + 1);
        }
        var str := ParseString(rest);
        match str {
          case StrError =>
            return ParseError, used;
          case StrWait(_, n) =>
            return ParseWait, used + n;
          case StrOk(text, n) =>
            params := params[numOfParam := text];
            numOfParam := numOfParam + 1;
            rest, used := Rest(rest, n), used + n;
        }
      }
      NoParams(Abstract(), rest);
      params := Resize(params, numOfParam);
      return ParseOk, used;
    }

    /** ParseRequest. */
    method Parse(s: seq<byte>) returns (r: QParseResult, used: nat)
      requires paramLen >= -1
      modifies this
      ensures match ParseRequest(old(Abstract()), s)
              case Error => r == ParseError
              case Result(ok, p, u) => r == (if ok then ParseOk else ParseWait) && Abstract() == p && used == u
    {
      hide ParseStrlist;
      used := 0;
      if multi == -1 {
        if |s| < 3 { return ParseWait, 0; }
        if s[0] != ASTERISK { return ParseError, 0; }
        used := 1;
        match GetIntUntilCRLF(s[1..]) {
          case IntError =>
            return ParseError, used;
          case IntWait =>
            return ParseWait, used;
          case IntOk(val, n) =>
            multi, used := val, n + 1;
            if multi < -1 { return ParseError, used; }
        }
      }
      var n: nat;
      r, n := ParseList(Rest(s, used));
      used := used + n;
    }
  }

  datatype QParseResult = ParseOk | ParseWait | ParseError

  /** Reset keeps at most three of the old strings, to use their memory again. */
  function Fresh(p: Parser): Parser { Parser(-1, -1, 0, if |p.params| > 3 then p.params[..3] else p.params) }
}
