/** Commands as an append-only file keeps them: the printers of QedisCore/QAOF.h, and the loader of
    QedisCore/QAOF.cc. */
module QAOF {
  import opened Bytes
  import opened Options
  import opened Integers
  import opened QProtoParser

  const CRLF: seq<byte> := [CR, LF]

  // ----- what is printed -----

  function Header(mark: byte, n: nat): seq<byte> { [mark] + DecimalNat(n) + CRLF }

  function BulkString(s: QString): seq<byte> { Header(DOLLAR, |s|) + s + CRLF }

  function BulkStrings(ss: seq<QString>): seq<byte> {
    if ss == [] then [] else BulkString(ss[0]) + BulkStrings(ss[1..])
  }

  function Command(params: seq<QString>): seq<byte> { Header(ASTERISK, |params|) + BulkStrings(params) }

  function Commands(cmds: seq<seq<QString>>): seq<byte> {
    if cmds == [] then [] else Command(cmds[0]) + Commands(cmds[1..])
  }

  /** WriteBulkString. */
  method WriteBulkString(str: QString, dst: seq<byte>) returns (r: seq<byte>)
    ensures r == dst + BulkString(str)
  {
    r := dst + Header(DOLLAR, |str|);
    r := r + str;
    r := r + CRLF;
    AppendAssociates(dst + Header(DOLLAR, |str|), str, CRLF);
    AppendAssociates(dst, Header(DOLLAR, |str|), str + CRLF);
    AppendAssociates(Header(DOLLAR, |str|), str, CRLF);
  }

  /** SaveCommand. */
  method SaveCommand(params: seq<QString>, dst: seq<byte>) returns (r: seq<byte>)
    ensures r == dst + Command(params)
  {
    hide BulkString, BulkStrings, Header;
    r := dst + Header(ASTERISK, |params|);
    ghost var start := r;
    var i := 0;
    NoStrings(params);
    while i < |params|
      invariant i <= |params| && r + BulkStrings(params[i..]) == start + BulkStrings(params)
    {
      FirstString(params, i);
      AppendAssociates(r, BulkString(params[i]), BulkStrings(params[i + 1..]));
      r := WriteBulkString(params[i], r);
      i := i + 1;
    }
    NoStrings(params);
    assert r + [] == r;
    AppendAssociates(dst, Header(ASTERISK, |params|), BulkStrings(params));
  }

  lemma FirstString(ss: seq<QString>, i: nat)
    requires i < |ss|
    ensures BulkStrings(ss[i..]) == BulkString(ss[i]) + BulkStrings(ss[i + 1..])
  {
  }

  lemma NoStrings(ss: seq<QString>)
    ensures BulkStrings(ss[|ss|..]) == [] && ss[0..] == ss
  {
  }

  // ----- what is read back -----

  /** Numbers are kept in an int. */
  const INT_LIMIT := 0x8000_0000

  lemma {:induction false} NumberOfDecimal(n: nat)
    ensures forall k :: 0 <= k < |DecimalNat(n)| ==> IsDigit(DecimalNat(n)[k])
    ensures Number(DecimalNat(n)) == n
  {
    if n >= 10 {
      NumberOfDecimal(n / 10);
      assert DecimalNat(n)[..|DecimalNat(n)| - 1] == DecimalNat(n / 10);
    } else {
      assert DecimalNat(n)[..0] == [];
    }
  }

  lemma {:induction false} DigitsEndIs(s: seq<byte>, i: nat, j: nat)
    requires i <= j < |s| && !IsDigit(s[j]) && forall k :: i <= k < j ==> IsDigit(s[k])
    ensures DigitsEnd(s, i) == j
    decreases j - i
  {
    if i < j {
      DigitsEndIs(s, i + 1, j);
    }
  }

  lemma HeaderParses(n: nat, tail: seq<byte>)
    requires n < INT_LIMIT
    ensures GetIntUntilCRLF(DecimalNat(n) + CRLF + tail) == IntOk(n, |DecimalNat(n)| + 2)
  {
    hide DecimalNat, Number;
    var d, s := DecimalNat(n), DecimalNat(n) + CRLF + tail;
    NumberOfDecimal(n);
    assert forall k :: 0 <= k < |d| ==> s[k] == d[k];
    assert s[|d|] == CR && s[|d| + 1] == LF && IsDigit(s[0]);
    DigitsEndIs(s, 0, |d|);
    assert s[0..|d|] == d;
  }

  lemma HeaderIs(mark: byte, n: nat, tail: seq<byte>)
    ensures var s := Header(mark, n) + tail;
            && |s| >= 3 && s[0] == mark && s[1..] == DecimalNat(n) + CRLF + tail
            && Rest(s, |DecimalNat(n)| + 3) == tail && |Header(mark, n)| == |DecimalNat(n)| + 3
  {
    hide DecimalNat;
    var h := Header(mark, n);
    AppendPrefix(h, tail);
    assert h[1..] == DecimalNat(n) + CRLF;
    assert (h + tail)[1..] == h[1..] + tail;
  }

  lemma StringParses(x: QString, tail: seq<byte>)
    requires |x| < INT_LIMIT
    ensures ParseStr(-1, BulkString(x) + tail) == StrOk(x, |BulkString(x)|)
    ensures Rest(BulkString(x) + tail, |BulkString(x)|) == tail
  {
    hide GetIntUntilCRLF, DecimalNat, Header;
    var h, body := Header(DOLLAR, |x|), x + CRLF + tail;
    AppendAssociates(h, x, CRLF);
    AppendAssociates(h, x + CRLF, tail);
    HeaderIs(DOLLAR, |x|, body);
    HeaderParses(|x|, body);
    assert body[..|x|] == x && body[|x|] == CR && body[|x| + 1] == LF;
    AppendPrefix(BulkString(x), tail);
  }

  lemma {:induction false} ListParses(p: Parser, ss: seq<QString>, tail: seq<byte>)
    requires p.paramLen == -1 && p.multi == p.numOfParam + |ss| && |BulkStrings(ss)| < INT_LIMIT
    ensures ParseStrlist(p, BulkStrings(ss) + tail)
            == Result(true, Parser(p.multi, -1, p.multi, Resize(p.params, p.numOfParam) + ss), |BulkStrings(ss)|)
    decreases |ss|
  {
    hide ParseStrlist, ParseStr, BulkString;
    var n := p.numOfParam;
    if ss == [] {
      NoParams(p, [] + tail);
      assert Resize(p.params, n) + [] == Resize(p.params, n);
    } else {
      var s := BulkStrings(ss[1..]) + tail;
      AppendAssociates(BulkString(ss[0]), BulkStrings(ss[1..]), tail);
      StringSize(ss[0]);
      StringParses(ss[0], s);
      ListStep(p, BulkStrings(ss) + tail);
      var next := Parser(p.multi, -1, n + 1, Grown(p)[n := ss[0]]);
      ListParses(next, ss[1..], tail);
      GrownPrefix(p, ss[0]);
      AppendAssociates(Resize(p.params, n), [ss[0]], ss[1..]);
      assert [ss[0]] + ss[1..] == ss;
    }
  }

  lemma StringSize(x: QString)
    ensures |BulkString(x)| >= |x| + 6
  {
  }

  lemma {:induction false} StringsSize(ss: seq<QString>)
    ensures |BulkStrings(ss)| >= |ss|
  {
    if ss != [] {
      StringsSize(ss[1..]);
      StringSize(ss[0]);
    }
  }

  lemma GrownPrefix(p: Parser, text: QString)
    ensures Resize(Grown(p)[p.numOfParam := text], p.numOfParam + 1) == Resize(p.params, p.numOfParam) + [text]
  {
  }

  /** A command parses back to its parameters, and nothing behind it is touched. */
  lemma CommandParses(p: Parser, params: seq<QString>, tail: seq<byte>)
    requires p.multi == -1 && p.paramLen == -1 && p.numOfParam == 0 && |Command(params)| < INT_LIMIT
    ensures ParseRequest(p, Command(params) + tail)
            == Result(true, Parser(|params|, -1, |params|, params), |Command(params)|)
  {
    hide GetIntUntilCRLF, DecimalNat, Header, BulkStrings, ParseStrlist;
    var h, body := Header(ASTERISK, |params|), BulkStrings(params) + tail;
    AppendAssociates(h, BulkStrings(params), tail);
    HeaderIs(ASTERISK, |params|, body);
    StringsSize(params);
    HeaderParses(|params|, body);
    ListParses(p.(multi := |params|), params, tail);
    assert Resize(p.params, 0) + params == params;
  }

  // ----- a request in pieces -----

  /** A string cut after k bytes of its header can be taken up again, unless three digits or more of the length are
      there, but not the line end. */
  predicate StringCutOk(x: QString, k: nat) { k < 4 || k + 1 >= |Header(DOLLAR, |x|)| }

  predicate StringsCutOk(ss: seq<QString>, k: nat) {
    ss == []
    || if k < |BulkString(ss[0])| then StringCutOk(ss[0], k) else StringsCutOk(ss[1..], k - |BulkString(ss[0])|)
  }

  /** A command cut after k bytes can be taken up again, unless its own header is cut behind two bytes, or that of a
      string where it must not be. */
  predicate CutOk(params: seq<QString>, k: nat) {
    var h := |Header(ASTERISK, |params|)|;
    if k < h then k < 3 else StringsCutOk(params, k - h)
  }

  /** Behind the header of string i, up to its end, a command can be cut anywhere. */
  lemma {:induction false} BehindHeader(ss: seq<QString>, i: nat, k: nat)
    requires i < |ss|
    requires |BulkStrings(ss[..i])| + |Header(DOLLAR, |ss[i]|)| <= k <= |BulkStrings(ss[..i + 1])|
    ensures StringsCutOk(ss, k)
  {
    hide BulkString, Header;
    assert ss[..i + 1] == [ss[0]] + ss[1..][..i];
    var first := |BulkString(ss[0])|;
    assert ss[..i + 1][1..] == ss[1..][..i] && |BulkStrings(ss[..i + 1])| == first + |BulkStrings(ss[1..][..i])|;
    if i > 0 {
      assert ss[..i][1..] == ss[1..][..i - 1] && ss[..i][0] == ss[0];
      BehindHeader(ss[1..], i - 1, k - first);
    } else if k >= first {
      assert BulkStrings(ss[1..][..0]) == [];
      AtStart(ss[1..]);
    }
  }

  lemma AtStart(ss: seq<QString>)
    ensures StringsCutOk(ss, 0)
  {
  }

  /** The first digits of a number make up a smaller number, but not 0. */
  lemma {:induction false} FirstDigits(n: nat, c: nat)
    requires 1 <= c <= |DecimalNat(n)| && (c > 1 || n > 0)
    ensures forall k :: 0 <= k < c ==> IsDigit(DecimalNat(n)[k])
    ensures 1 <= Number(DecimalNat(n)[..c]) <= n
  {
    var d := DecimalNat(n);
    NumberOfDecimal(n);
    if c == |d| {
      assert d[..c] == d;
    } else {
      assert d[..c] == DecimalNat(n / 10)[..c];
      FirstDigits(n / 10, c);
    }
  }

  /** A number cut behind c bytes: fewer than three are waited for, and so is the second byte of the line end; three
      digits or more are taken for the number. */
  lemma NumberCut(n: nat, c: nat)
    requires n < INT_LIMIT && c < |DecimalNat(n)| + 2
    ensures var s, d := (DecimalNat(n) + CRLF)[..c], |DecimalNat(n)|;
            if c < 3 || c == d + 1 then GetIntUntilCRLF(s) == IntWait
            else var r := GetIntUntilCRLF(s); r.IntOk? && 1 <= r.val <= n && r.used == c + 2
  {
    hide DecimalNat, Number;
    var d, s := DecimalNat(n), (DecimalNat(n) + CRLF)[..c];
    NumberOfDecimal(n);
    assert forall k :: 0 <= k < c && k < |d| ==> s[k] == d[k];
    if c >= 3 {
      assert IsDigit(s[0]);
      if c == |d| + 1 {
        assert s[|d|] == CR;
        DigitsEndIs(s, 0, |d|);
      } else {
        assert s == d[..c];
        FirstDigits(n, c);
        AllDigits(s, 0);
        assert s[0..c] == s;
        assert GetIntUntilCRLF(s) == IntOk(Number(s), c + 2);
      }
    }
  }

  lemma {:induction false} AllDigits(s: seq<byte>, i: nat)
    requires i <= |s| && forall k :: i <= k < |s| ==> IsDigit(s[k])
    ensures DigitsEnd(s, i) == |s|
    decreases |s| - i
  {
    if i < |s| {
      AllDigits(s, i + 1);
    }
  }

  /** The bytes of a header behind its mark. */
  lemma HeaderCut(mark: byte, n: nat, tail: seq<byte>, k: nat)
    requires 3 <= k < |Header(mark, n)|
    ensures var s := (Header(mark, n) + tail)[..k];
            |s| == k && s[0] == mark && s[1..] == (DecimalNat(n) + CRLF)[..k - 1]
    ensures |Header(mark, n)| == |DecimalNat(n)| + 3
  {
    hide DecimalNat;
    var h, s := Header(mark, n), (Header(mark, n) + tail)[..k];
    HeaderIs(mark, n, tail);
    assert h[1..] == DecimalNat(n) + CRLF;
    assert s == h[..k];
    assert h[..k][1..] == h[1..][..k - 1];
  }

  /** A string that is cut is waited for; ptr stays inside the buffer if and only if the cut can be taken up again. */
  lemma StringCut(x: QString, k: nat)
    requires |x| < INT_LIMIT && k < |BulkString(x)|
    ensures var r := ParseStr(-1, BulkString(x)[..k]);
            r.StrWait? && if StringCutOk(x, k) then r.used <= k else r.used == k + 2
  {
    hide GetIntUntilCRLF, DecimalNat, Header;
    var h, s := Header(DOLLAR, |x|), BulkString(x)[..k];
    AppendAssociates(h, x, CRLF);
    HeaderIs(DOLLAR, |x|, x + CRLF);
    if 3 <= k < |h| {
      HeaderCut(DOLLAR, |x|, x + CRLF, k);
      NumberCut(|x|, k - 1);
    } else if k >= |h| {
      var rest := (x + CRLF)[..k - |h|];
      assert s == h + rest;
      HeaderIs(DOLLAR, |x|, rest);
      HeaderParses(|x|, rest);
    }
  }

  lemma {:induction false} ListCut(p: Parser, ss: seq<QString>, k: nat)
    requires p.paramLen == -1 && p.multi == p.numOfParam + |ss| && k < |BulkStrings(ss)| < INT_LIMIT
    ensures var o := ParseStrlist(p, BulkStrings(ss)[..k]);
            && o.Result? && !o.ok && o.parser.multi == p.multi
            && if StringsCutOk(ss, k) then o.used <= k else o.used == k + 2
    decreases |ss|
  {
    hide ParseStrlist, ParseStr, BulkString, StringCutOk;
    var first, rest, n := BulkString(ss[0]), BulkStrings(ss[1..]), p.numOfParam;
    StringSize(ss[0]);
    ListStep(p, BulkStrings(ss)[..k]);
    if k < |first| {
      assert (first + rest)[..k] == first[..k];
      StringCut(ss[0], k);
    } else {
      var s := rest[..k - |first|];
      assert (first + rest)[..k] == first + s;
      StringParses(ss[0], s);
      ListCut(Parser(p.multi, -1, n + 1, Grown(p)[n := ss[0]]), ss[1..], k - |first|);
    }
  }

  /** A command that is cut is waited for, and the parser can go on if and only if the cut can be taken up again. If
      not, the asterisk is lost when two bytes stand behind it or all of its header but the last, and ptr moves behind
      the end of the buffer otherwise. */
  lemma CommandCut(p: Parser, params: seq<QString>, k: nat)
    requires p.multi == -1 && p.paramLen == -1 && p.numOfParam == 0
    requires |Command(params)| < INT_LIMIT && k < |Command(params)|
    ensures var o := ParseRequest(p, Command(params)[..k]);
            && o.Result? && !o.ok && (CanGoOn(o, k) <==> CutOk(params, k))
            && (CutOk(params, k) || if k == 3 || k + 1 == |Header(ASTERISK, |params|)| then o == Result(false, p, 1)
                                    else o.used == k + 2)
  {
    hide GetIntUntilCRLF, DecimalNat, Header, BulkStrings, ParseStrlist, StringsCutOk;
    var h, body, n := Header(ASTERISK, |params|), BulkStrings(params), |params|;
    StringsSize(params);
    HeaderIs(ASTERISK, n, body);
    if 3 <= k < |h| {
      HeaderCut(ASTERISK, n, body, k);
      NumberCut(n, k - 1);
      var r := GetIntUntilCRLF(Command(params)[..k][1..]);
      if r.IntOk? {
        ListStep(p.(multi := r.val), []);
      }
    } else if k >= |h| {
      var rest := body[..k - |h|];
      assert Command(params)[..k] == h + rest;
      HeaderIs(ASTERISK, n, rest);
      HeaderParses(n, rest);
      ListCut(p.(multi := n), params, k - |h|);
    }
  }

  /** All pieces but the last end where the command can be cut, until it is complete; at bytes of it have been fed. */
  predicate CutsOk(params: seq<QString>, at: nat, pieces: seq<seq<byte>>)
    decreases |pieces|
  {
    |pieces| <= 1 ||
    var k := at + |pieces[0]|;
    k >= |Command(params)| || (CutOk(params, k) && CutsOk(params, k, pieces[1..]))
  }

  /** Fed in pieces, a command parses as it does whole if and only if no piece ends where the command must not be
      cut. */
  lemma FedInPieces(params: seq<QString>, tail: seq<byte>, pieces: seq<seq<byte>>)
    requires |Command(params)| < INT_LIMIT && pieces != [] && Join(pieces) == Command(params) + tail
    ensures ParseRequest(Initial(), Join(pieces))
            == Result(true, Parser(|params|, -1, |params|, params), |Command(params)|)
    ensures Feed(Initial(), [], pieces) == ParseRequest(Initial(), Join(pieces)) <==> CutsOk(params, 0, pieces)
  {
    hide ParseRequest, Feed, CutsOk;
    CommandParses(Initial(), params, tail);
    CommandNotEmpty(params);
    NothingFed();
    assert [] + Join(pieces) == Join(pieces);
    FedOn(params, tail, [], pieces);
  }

  lemma NothingFed()
    ensures ParseRequest(Initial(), []) == Result(false, Initial(), 0) && Rest([], 0) == []
  {
  }

  lemma FirstBytes(next: seq<byte>, rest: seq<byte>, a: seq<byte>, b: seq<byte>)
    requires next + rest == a + b
    ensures if |next| >= |a| then next == a + next[|a|..] else next == a[..|next|]
  {
    assert next == (a + b)[..|next|];
  }

  lemma {:induction false} FedOn(params: seq<QString>, tail: seq<byte>, done: seq<byte>, pieces: seq<seq<byte>>)
    requires |Command(params)| < INT_LIMIT && pieces != [] && done + Join(pieces) == Command(params) + tail
    requires |done| < |Command(params)| && CanGoOn(ParseRequest(Initial(), done), |done|)
    ensures var o := ParseRequest(Initial(), done);
            && o.parser.paramLen >= -1
            && (LaterBy(Feed(o.parser, Rest(done, o.used), pieces), o.used)
                == ParseRequest(Initial(), Command(params) + tail)
                <==> CutsOk(params, |done|, pieces))
    decreases |pieces|
  {
    hide ParseRequest, Command, CutOk;
    RequestResumes(Initial(), done, pieces[0]);
    var o, next := ParseRequest(Initial(), done), done + pieces[0];
    var s, k := Rest(done, o.used) + pieces[0], |next|;
    var more := ParseRequest(o.parser, s);
    AppendAssociates(done, pieces[0], Join(pieces[1..]));
    CommandParses(Initial(), params, tail);
    FirstBytes(next, Join(pieces[1..]), Command(params), tail);
    if k >= |Command(params)| {
      CommandParses(Initial(), params, next[|Command(params)|..]);
    } else {
      CommandCut(Initial(), params, k);
      RestLater(done, pieces[0], o.used, more.used);
      if CutOk(params, k) {
        FedOn(params, tail, next, pieces[1..]);
      } else if more.used <= |s| {
        AsteriskLostForGood(params, next, pieces[1..]);
      }
    }
  }

  lemma AsteriskLostForGood(params: seq<QString>, next: seq<byte>, pieces: seq<seq<byte>>)
    requires |next| < |Command(params)| && next == Command(params)[..|next|] && pieces != []
    requires ParseRequest(Initial(), next) == Result(false, Initial(), 1)
    ensures !Succeeds(Feed(Initial(), Rest(next, 1), pieces))
  {
    hide DecimalNat, BulkStrings;
    NumberOfDecimal(|params|);
    assert |next| >= 3;
    assert next[1] == Command(params)[1] == Header(ASTERISK, |params|)[1] == DecimalNat(|params|)[0];
    NoAsterisk(Initial(), Rest(next, 1), pieces);
  }

  predicate Succeeds(o: Outcome) { o.Result? && o.ok }

  /** Without an asterisk in front there is no request, whatever is still to come. */
  lemma {:induction false} NoAsterisk(p: Parser, kept: seq<byte>, pieces: seq<seq<byte>>)
    requires p.multi == -1 && p.paramLen >= -1 && pieces != [] && kept != [] && kept[0] != ASTERISK
    ensures !Succeeds(Feed(p, kept, pieces))
    decreases |pieces|
  {
    var s := kept + pieces[0];
    if |s| < 3 && |pieces| > 1 {
      assert Rest(s, 0) == s;
      NoAsterisk(p, s, pieces[1..]);
    }
  }

  // ----- the loader -----

  /** The commands in a file; None if some request is wrong or incomplete. */
  function Loaded(p: Parser, content: seq<byte>): Option<seq<seq<QString>>>
    decreases |content|
  {
    if content == [] then Some([])
    else match ParseRequest(Fresh(p), content)
      case Error => None
      case Result(ok, p', used) =>
        if !ok || used == 0 then None
        else match Loaded(p', Rest(content, used))
          case None => None
          case Some(cmds) => Some([p'.params] + cmds)
  }

  /** A request that is there takes up bytes. */
  lemma RequestUses(p: Parser, s: seq<byte>)
    requires p.multi == -1 && p.paramLen >= -1
    ensures ParseRequest(p, s).Result? && ParseRequest(p, s).ok ==> ParseRequest(p, s).used > 0
  {
  }

  /** QAOFLoader::Load; an empty file is refused. */
  method Load(file: seq<byte>) returns (ok: bool, cmds: seq<seq<QString>>)
    ensures if file == [] then !ok
            else match Loaded(Initial(), file) case None => !ok case Some(all) => ok && cmds == all
  {
    hide Loaded, ParseRequest;
    cmds := [];
    if |file| == 0 { return false, []; }
    var content := file;
    var parser := new QProtoParser();
    ghost var all := Loaded(Initial(), file);
    assert After([], all) == all;
    while content != []
      invariant After(cmds, Loaded(parser.Abstract(), content)) == all
      decreases |content|
    {
      LoadedStep(parser.Abstract(), content, cmds);
      parser.Reset();
      var r, used := parser.Parse(content);
      if r != ParseOk { return false, []; }
      cmds := cmds + [parser.params];
      content := Rest(content, used);
    }
    LoadedStep(parser.Abstract(), content, cmds);
    return true, cmds;
  }

  function After(cmds: seq<seq<QString>>, more: Option<seq<seq<QString>>>): (r: Option<seq<seq<QString>>>)
    ensures cmds == [] ==> r == more
  {
    match more
    case None => None
    case Some(m) =>
      assert cmds == [] ==> cmds + m == m;
      Some(cmds + m)
  }

  /** One command of the file. */
  lemma LoadedStep(p: Parser, content: seq<byte>, cmds: seq<seq<QString>>)
    ensures content == [] ==> After(cmds, Loaded(p, content)) == Some(cmds)
    ensures var o := ParseRequest(Fresh(p), content);
            content != [] ==>
              if o == Error || !o.ok then Loaded(p, content) == None
              else o.used > 0 && After(cmds, Loaded(p, content))
                                 == After(cmds + [o.parser.params], Loaded(o.parser, Rest(content, o.used)))
  {
    hide ParseRequest;
    var o := ParseRequest(Fresh(p), content);
    RequestUses(Fresh(p), content);
    if content == [] {
      assert cmds + [] == cmds;
    } else if o.Result? && o.ok && Loaded(o.parser, Rest(content, o.used)).Some? {
      AppendAssociates(cmds, [o.parser.params], Loaded(o.parser, Rest(content, o.used)).value);
    }
  }

  lemma {:induction false} CommandsLoad(p: Parser, cmds: seq<seq<QString>>)
    requires |Commands(cmds)| < INT_LIMIT
    ensures Loaded(p, Commands(cmds)) == Some(cmds)
    decreases |cmds|
  {
    hide ParseRequest, Command;
    if cmds != [] {
      var tail := Commands(cmds[1..]);
      CommandParses(Fresh(p), cmds[0], tail);
      AppendPrefix(Command(cmds[0]), tail);
      CommandNotEmpty(cmds[0]);
      CommandsLoad(Parser(|cmds[0]|, -1, |cmds[0]|, cmds[0]), cmds[1..]);
      assert [cmds[0]] + cmds[1..] == cmds;
    }
  }

  /** A file that ends within a command is refused, wherever it is cut; and so is one in which what follows some
      commands is no request. */
  lemma {:induction false} BadTailLoads(p: Parser, cmds: seq<seq<QString>>, bad: seq<byte>)
    requires |Commands(cmds)| < INT_LIMIT && bad != []
    requires forall q: Parser :: IsIdle(q) ==> !Succeeds(ParseRequest(q, bad))
    ensures Loaded(p, Commands(cmds) + bad) == None
    decreases |cmds|
  {
    hide ParseRequest, Command;
    if cmds == [] {
      assert [] + bad == bad;
      assert IsIdle(Fresh(p));
    } else {
      var tail := Commands(cmds[1..]);
      AppendAssociates(Command(cmds[0]), tail, bad);
      CommandParses(Fresh(p), cmds[0], tail + bad);
      AppendPrefix(Command(cmds[0]), tail + bad);
      CommandNotEmpty(cmds[0]);
      BadTailLoads(Parser(|cmds[0]|, -1, |cmds[0]|, cmds[0]), cmds[1..], bad);
    }
  }

  predicate IsIdle(p: Parser) { p.multi == -1 && p.paramLen == -1 && p.numOfParam == 0 }

  lemma CutFileLoads(cmds: seq<seq<QString>>, params: seq<QString>, k: nat)
    requires |Commands(cmds)| < INT_LIMIT && |Command(params)| < INT_LIMIT && 0 < k < |Command(params)|
    ensures Loaded(Initial(), Commands(cmds) + Command(params)[..k]) == None
  {
    hide ParseRequest, Command, CutOk;
    forall q: Parser | IsIdle(q) ensures !Succeeds(ParseRequest(q, Command(params)[..k])) {
      CommandCut(q, params, k);
    }
    BadTailLoads(Initial(), cmds, Command(params)[..k]);
  }

  lemma CommandNotEmpty(params: seq<QString>)
    ensures |Command(params)| > 0
  {
  }

  /** Writing commands and loading the file gives the commands back, whatever their parameters hold; only the empty list
      does not come back, as the loader refuses an empty file. */
  method SaveAndLoad(cmds: seq<seq<QString>>) returns (ok: bool, loaded: seq<seq<QString>>)
    requires |Commands(cmds)| < INT_LIMIT
    ensures ok <==> cmds != []
    ensures ok ==> loaded == cmds
  {
    hide Command, Loaded, Commands;
    var file: seq<byte> := [];
    var i := 0;
    NoCommands(cmds);
    while i < |cmds|
      invariant i <= |cmds| && file + Commands(cmds[i..]) == Commands(cmds)
    {
      FirstCommand(cmds, i);
      AppendAssociates(file, Command(cmds[i]), Commands(cmds[i + 1..]));
      file := SaveCommand(cmds[i], file);
      i := i + 1;
    }
    NoCommands(cmds);
    assert file + [] == file;
    CommandsLoad(Initial(), cmds);
    if cmds != [] {
      FirstCommand(cmds, 0);
      CommandNotEmpty(cmds[0]);
    }
    ok, loaded := Load(file);
  }

  lemma FirstCommand(cmds: seq<seq<QString>>, i: nat)
    requires i < |cmds|
    ensures Commands(cmds[i..]) == Command(cmds[i]) + Commands(cmds[i + 1..])
  {
  }

  lemma NoCommands(cmds: seq<seq<QString>>)
    ensures Commands(cmds[|cmds|..]) == [] && cmds[0..] == cmds && (cmds == [] ==> Commands(cmds) == [])
  {
  }
}
