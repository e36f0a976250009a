/**
 * The node-side contribution that connects the diagram client to the Ecore
 * GLSP server: the server's port comes from a `--ECORE_GLSP=<port>` process
 * argument, and `start` connects a socket to it only when that port is truthy.
 *
 * Numbers follow the JavaScript semantics the code relies on: `Number.parseInt`
 * with radix 10 reads optional leading white space, an optional sign and the
 * leading decimal digits, and yields NaN when there are no digits.
 */
module GlspServerContribution {

  const Flag := "--ECORE_GLSP="

  predicate StartsWith(s: string, prefix: string)
  {
    |prefix| <= |s| && s[..|prefix|] == prefix
  }

  predicate IsFlag(arg: string)
  {
    StartsWith(arg, Flag)
  }

  /** `argv.filter(a => a.startsWith('--ECORE_GLSP='))`: the flag arguments, in order. */
  function FlagArguments(argv: seq<string>): (r: seq<string>)
    ensures forall i :: 0 <= i < |r| ==> IsFlag(r[i])
    ensures |r| <= |argv|
  {
    if argv == [] then []
    else (if IsFlag(argv[0]) then [argv[0]] else []) + FlagArguments(argv[1..])
  }

  // ---------------------------------------------------------------------------
  // Number.parseInt(text, 10)
  // ---------------------------------------------------------------------------

  /** A JavaScript `number | undefined` as far as the port goes: NaN, or an integer. */
  datatype Port = Undefined | NaN | Number(value: int)

  /** JavaScript truthiness: undefined, NaN and 0 are falsy. */
  predicate Truthy(p: Port)
  {
    p.Number? && p.value != 0
  }

  /** ECMAScript white space and line terminators, which parseInt skips first. */
  predicate IsStrWhiteSpace(c: char)
  {
    c == '\t' || c == '\n' || c == '\U{000B}' || c == '\U{000C}' || c == '\r' || c == ' '
    || c == '\U{00A0}' || c == '\U{1680}' || ('\U{2000}' <= c <= '\U{200A}')
    || c == '\U{2028}' || c == '\U{2029}' || c == '\U{202F}' || c == '\U{205F}'
    || c == '\U{3000}' || c == '\U{FEFF}'
  }

  predicate IsDigit(c: char)
  {
    '0' <= c <= '9'
  }

  predicate AllDigits(s: string)
  {
    forall i :: 0 <= i < |s| ==> IsDigit(s[i])
  }

  /** The text without its leading white space. */
  function TrimStart(s: string): string
  {
    if s != [] && IsStrWhiteSpace(s[0]) then TrimStart(s[1..]) else s
  }

  /** What is trimmed is white space, and what is left starts with something else. */
  lemma {:induction false} TrimStartSkipsWhiteSpace(s: string)
    ensures var r := TrimStart(s);
            && |r| <= |s| && r == s[|s| - |r|..]
            && (forall i :: 0 <= i < |s| - |r| ==> IsStrWhiteSpace(s[i]))
            && (r == [] || !IsStrWhiteSpace(r[0]))
  {
    if s != [] && IsStrWhiteSpace(s[0]) {
      TrimStartSkipsWhiteSpace(s[1..]);
      var r := TrimStart(s);
      assert forall i :: 1 <= i < |s| - |r| ==> s[i] == s[1..][i - 1];
    }
  }

  /** The longest run of decimal digits the text starts with. */
  function LeadingDigits(s: string): (d: string)
    ensures |d| <= |s| && d == s[..|d|]
    ensures AllDigits(d)
    ensures |d| == |s| || !IsDigit(s[|d|])
  {
    if s != [] && IsDigit(s[0]) then [s[0]] + LeadingDigits(s[1..]) else []
  }

  /** The value of a run of decimal digits, most significant first. */
  function DigitsValue(d: string): nat
    requires AllDigits(d)
  {
    if d == [] then 0 else DigitsValue(d[..|d| - 1]) * 10 + (d[|d| - 1] as int - '0' as int)
  }

  /** `Number.parseInt(text, 10)`; -0 is represented by 0, which is falsy just the same. */
  function ParseInt(text: string): (r: Port)
    ensures r != Undefined
  {
    ParseSigned(TrimStart(text))
  }

  /** The parse once the leading white space is gone: an optional sign, then the digits. */
  function ParseSigned(t: string): (r: Port)
    ensures r != Undefined
  {
    var negative := t != [] && t[0] == '-';
    var unsigned := if t != [] && (t[0] == '-' || t[0] == '+') then t[1..] else t;
    var digits := LeadingDigits(unsigned);
    if digits == [] then NaN
    else if negative then Number(-(DigitsValue(digits) as int))
    else Number(DigitsValue(digits))
  }

  /**
   * `getPort`: the parse of what follows the flag in its first occurrence;
   * undefined exactly when no argument starts with the flag.
   */
  function GetPort(argv: seq<string>): (r: Port)
    ensures r == Undefined <==> forall i :: 0 <= i < |argv| ==> !IsFlag(argv[i])
  {
    NoFlagArgumentsIffNoFlag(argv);
    var matching := FlagArguments(argv);
    if matching == [] then Undefined else ParseInt(matching[0][|Flag|..])
  }

  // ---------------------------------------------------------------------------
  // Which argument getPort reads
  // ---------------------------------------------------------------------------

  lemma {:induction false} NoFlagArgumentsIffNoFlag(argv: seq<string>)
    ensures FlagArguments(argv) == [] <==> forall i :: 0 <= i < |argv| ==> !IsFlag(argv[i])
  {
    if argv != [] {
      NoFlagArgumentsIffNoFlag(argv[1..]);
      if !IsFlag(argv[0]) {
        assert forall i :: 1 <= i < |argv| ==> argv[i] == argv[1..][i - 1];
      }
    }
  }

  lemma {:induction false} FirstFlagArgument(argv: seq<string>, k: nat)
    requires k < |argv| && IsFlag(argv[k])
    requires forall j :: 0 <= j < k ==> !IsFlag(argv[j])
    ensures FlagArguments(argv) != [] && FlagArguments(argv)[0] == argv[k]
  {
    if k > 0 {
      assert forall j :: 0 <= j < k - 1 ==> argv[1..][j] == argv[j + 1];
      FirstFlagArgument(argv[1..], k - 1);
    }
  }

  /** Of several flag arguments, only the first counts. */
  lemma FirstFlagWins(argv: seq<string>, k: nat)
    requires k < |argv| && IsFlag(argv[k])
    requires forall j :: 0 <= j < k ==> !IsFlag(argv[j])
    ensures GetPort(argv) == ParseInt(argv[k][|Flag|..])
  {
    FirstFlagArgument(argv, k);
  }

  // ---------------------------------------------------------------------------
  // What parseInt reads
  // ---------------------------------------------------------------------------

  /** The decimal text of a natural number, without leading zeros. */
  function Decimal(n: nat): (s: string)
    ensures s != [] && AllDigits(s)
  {
    if n < 10 then [('0' as int + n) as char]
    else Decimal(n / 10) + [('0' as int + n % 10) as char]
  }

  lemma {:induction false} DecimalValue(n: nat)
    ensures DigitsValue(Decimal(n)) == n
  {
    var s := Decimal(n);
    if n >= 10 {
      assert s[..|s| - 1] == Decimal(n / 10);
      DecimalValue(n / 10);
    } else {
      assert s[..|s| - 1] == [];
    }
  }

  lemma {:induction false} LeadingDigitsOf(d: string, rest: string)
    requires AllDigits(d)
    requires rest == [] || !IsDigit(rest[0])
    ensures LeadingDigits(d + rest) == d
  {
    if d == [] {
      assert d + rest == rest;
    } else {
      assert (d + rest)[1..] == d[1..] + rest;
      LeadingDigitsOf(d[1..], rest);
      assert [d[0]] + d[1..] == d;
    }
  }

  /**
   * The parse reads the leading digits and ignores what follows them: a port
   * written in decimal, followed by anything that is not a digit, parses to itself.
   */
  lemma ParsesLeadingDecimal(n: nat, rest: string)
    requires rest == [] || !IsDigit(rest[0])
    ensures ParseInt(Decimal(n) + rest) == Number(n)
  {
    DecimalValue(n);
    ParsesDigits(Decimal(n), rest);
  }

  lemma ParsesDigits(digits: string, rest: string)
    requires digits != [] && AllDigits(digits)
    requires rest == [] || !IsDigit(rest[0])
    ensures ParseInt(digits + rest) == Number(DigitsValue(digits))
  {
    var t := digits + rest;
    assert t[0] == digits[0] && !IsStrWhiteSpace(t[0]);
    assert TrimStart(t) == t;
    UnsignedDigits(digits, rest);
  }

  lemma {:induction false} TrimStartOf(ws: string, t: string)
    requires forall i :: 0 <= i < |ws| ==> IsStrWhiteSpace(ws[i])
    requires t == [] || !IsStrWhiteSpace(t[0])
    ensures TrimStart(ws + t) == t
  {
    if ws == [] {
      assert ws + t == t;
    } else {
      assert (ws + t)[1..] == ws[1..] + t;
      TrimStartOf(ws[1..], t);
    }
  }

  /**
   * What parseInt reads, in general: leading white space, an optional sign and
   * a run of decimal digits (leading zeros included), up to the first non-digit.
   */
  lemma ParsesSignedDigits(ws: string, sign: string, digits: string, rest: string)
    requires forall i :: 0 <= i < |ws| ==> IsStrWhiteSpace(ws[i])
    requires sign == "" || sign == "+" || sign == "-"
    requires digits != [] && AllDigits(digits)
    requires rest == [] || !IsDigit(rest[0])
    ensures ParseInt(ws + sign + digits + rest)
         == Number(if sign == "-" then -(DigitsValue(digits) as int) else DigitsValue(digits))
  {
    var t := sign + digits + rest;
    assert ws + sign + digits + rest == ws + t;
    assert t[0] == (if sign == "" then digits[0] else sign[0]);
    TrimStartOf(ws, t);
    assert ParseInt(ws + t) == ParseSigned(t);
    SignedDigits(sign, digits, rest);
  }

  lemma SignedDigits(sign: string, digits: string, rest: string)
    requires sign == "" || sign == "+" || sign == "-"
    requires digits != [] && AllDigits(digits)
    requires rest == [] || !IsDigit(rest[0])
    ensures ParseSigned(sign + digits + rest)
         == Number(if sign == "-" then -(DigitsValue(digits) as int) else DigitsValue(digits))
  {
    if sign == "" {
      assert sign + digits + rest == digits + rest;
      UnsignedDigits(digits, rest);
    } else {
      assert sign + digits + rest == [sign[0]] + (digits + rest);
      SignBeforeDigits(sign[0], digits, rest);
    }
  }

  lemma UnsignedDigits(digits: string, rest: string)
    requires digits != [] && AllDigits(digits)
    requires rest == [] || !IsDigit(rest[0])
    ensures ParseSigned(digits + rest) == Number(DigitsValue(digits))
  {
    LeadingDigitsOf(digits, rest);
    assert (digits + rest)[0] == digits[0];
  }

  lemma SignBeforeDigits(c: char, digits: string, rest: string)
    requires c == '+' || c == '-'
    requires digits != [] && AllDigits(digits)
    requires rest == [] || !IsDigit(rest[0])
    ensures ParseSigned([c] + (digits + rest))
         == Number(if c == '-' then -(DigitsValue(digits) as int) else DigitsValue(digits))
  {
    LeadingDigitsOf(digits, rest);
    assert ([c] + (digits + rest))[1..] == digits + rest;
  }

  /** A port written with a leading zero reads as the same port. */
  lemma LeadingZeroPort()
    ensures GetPort([Flag + "05007"]) == Number(5007)
  {
    FlagText("05007");
    FlagAfter([], Flag + "05007", []);
    assert [] + [Flag + "05007"] + [] == [Flag + "05007"];
    ParsesSignedDigits([], "", "05007", []);
    assert [] + "" + "05007" + [] == "05007";
    ValueOf05007();
  }

  lemma ValueOf05007()
    ensures AllDigits("05007") && DigitsValue("05007") == 5007
  {
    assert "05007"[..4] == "0500" && "0500"[..3] == "050" && "050"[..2] == "05" && "05"[..1] == "0";
    assert "0"[..0] == [];
  }

  /** With no digits after the optional sign, the parse is NaN. */
  lemma NoDigitsIsNaN(text: string)
    requires var t := TrimStart(text);
             var unsigned := if t != [] && (t[0] == '-' || t[0] == '+') then t[1..] else t;
             unsigned == [] || !IsDigit(unsigned[0])
    ensures ParseInt(text) == NaN
  {
  }

  /** The round trip of the flag: the first `--ECORE_GLSP=<n>` argument gives port n. */
  lemma FlagRoundTrip(before: seq<string>, n: nat, rest: string, after: seq<string>)
    requires forall j :: 0 <= j < |before| ==> !IsFlag(before[j])
    requires rest == [] || !IsDigit(rest[0])
    ensures GetPort(before + [Flag + Decimal(n) + rest] + after) == Number(n)
  {
    var text := Decimal(n) + rest;
    assert Flag + Decimal(n) + rest == Flag + text;
    FlagText(text);
    FlagAfter(before, Flag + text, after);
    ParsesLeadingDecimal(n, rest);
  }

  lemma FlagText(text: string)
    ensures IsFlag(Flag + text) && (Flag + text)[|Flag|..] == text
  {
    assert (Flag + text)[..|Flag|] == Flag;
  }

  /** A flag argument after arguments that are not flags is the one `getPort` reads. */
  lemma FlagAfter(before: seq<string>, arg: string, after: seq<string>)
    requires forall j :: 0 <= j < |before| ==> !IsFlag(before[j])
    requires IsFlag(arg)
    ensures GetPort(before + [arg] + after) == ParseInt(arg[|Flag|..])
  {
    var argv := before + [arg] + after;
    assert argv[|before|] == arg;
    assert forall j :: 0 <= j < |before| ==> argv[j] == before[j];
    FirstFlagWins(argv, |before|);
  }

  /** Radix 10 reads `0x1F` as 0, so that port is refused as falsy. */
  lemma HexPortIsFalsy()
    ensures GetPort(["--ECORE_GLSP=0x1F"]) == Number(0)
    ensures !Truthy(GetPort(["--ECORE_GLSP=0x1F"]))
  {
    FlagRoundTrip([], 0, "x1F", []);
    assert Flag + Decimal(0) + "x1F" == "--ECORE_GLSP=0x1F";
    assert [] + ["--ECORE_GLSP=0x1F"] + [] == ["--ECORE_GLSP=0x1F"];
  }

  /** A signed port passes the guard: `--ECORE_GLSP=-5007` gives the truthy -5007. */
  lemma NegativePortIsTruthy()
    ensures GetPort(["--ECORE_GLSP=-5007"]) == Number(-5007)
    ensures Truthy(GetPort(["--ECORE_GLSP=-5007"]))
  {
    var argv := ["--ECORE_GLSP=-5007"];
    assert IsFlag(argv[0]);
    FirstFlagWins(argv, 0);
    var text := argv[0][|Flag|..];
    assert text == "-5007";
    assert TrimStart(text) == text;
    assert text[1..] == Decimal(5007) by {
      assert Decimal(5) == "5" && Decimal(50) == "50" && Decimal(500) == "500";
    }
    LeadingDigitsOf(Decimal(5007), []);
    assert Decimal(5007) + [] == Decimal(5007);
    DecimalValue(5007);
  }

  // ---------------------------------------------------------------------------
  // start
  // ---------------------------------------------------------------------------

  const ConnectError := "Error when trying to connect to Ecore GLSP server"

  /** What `start` does to the outside world, in order. */
  datatype Effect =
    | NewSocket                 // new net.Socket()
    | CreateConnection          // createSocketConnection(socket, socket, destroy on close)
    | Forward                   // this.forward(clientConnection, serverConnection)
    | Connect(port: int)        // socket.connect(port)
    | LogError(message: string) // console.error

  class EcoreGLServerContribution {
    /** Everything the contribution has done to the outside world so far. */
    var effects: seq<Effect>

    constructor ()
      ensures effects == []
    {
      effects := [];
    }

    /**
     * `start`: with a truthy port, make the socket and its connection, register
     * the forwarding and then connect to that port; otherwise log one error and
     * touch no socket.
     */
    method Start(argv: seq<string>)
      modifies this
      ensures Truthy(GetPort(argv)) ==>
                effects == old(effects) + [NewSocket, CreateConnection, Forward, Connect(GetPort(argv).value)]
      ensures !Truthy(GetPort(argv)) ==> effects == old(effects) + [LogError(ConnectError)]
    {
      var socketPort := GetPort(argv);
      if Truthy(socketPort) {
        effects := effects + [NewSocket];
        effects := effects + [CreateConnection];
        effects := effects + [Forward];
        effects := effects + [Connect(socketPort.value)];
      } else {
        effects := effects + [LogError(ConnectError)];
      }
    }
  }

  /** Without the flag, starting makes no socket and logs exactly one error. */
  method StartWithoutFlag(argv: seq<string>) returns (effects: seq<Effect>)
    requires forall i :: 0 <= i < |argv| ==> !IsFlag(argv[i])
    ensures effects == [LogError(ConnectError)]
  {
    var contribution := new EcoreGLServerContribution();
    contribution.Start(argv);
    effects := contribution.effects;
  }

  /** With `--ECORE_GLSP=<n>` first and n positive, starting forwards and then connects to n. */
  method StartWithPort(before: seq<string>, n: nat, after: seq<string>) returns (effects: seq<Effect>)
    requires forall j :: 0 <= j < |before| ==> !IsFlag(before[j])
    requires n > 0
    ensures effects == [NewSocket, CreateConnection, Forward, Connect(n)]
  {
    FlagRoundTrip(before, n, [], after);
    var contribution := new EcoreGLServerContribution();
    contribution.Start(before + [Flag + Decimal(n) + []] + after);
    effects := contribution.effects;
  }
}
