/** Collecting and reading the parameters of a control sequence. */
module Dispatching {
  const PARAM_MAX := 65535
  const SEMICOLON := 0x3B
  const MAXIMUM_CLIPBOARD_SIZE := 16 * 1024

  predicate Digit(c: int) {
    0x30 <= c <= 0x39
  }

  predicate ParamChar(c: int) {
    Digit(c) || c == SEMICOLON
  }

  function Decimal(n: nat): seq<int> {
    if n < 10 then [0x30 + n] else Decimal(n / 10) + [0x30 + n % 10]
  }

  /** The number that digits spell. */
  function ValueOf(s: seq<int>): int {
    if s == [] then 0 else ValueOf(s[..|s| - 1]) * 10 + (s[|s| - 1] - 0x30)
  }

  /** A parameter, or -1 if it is missing or too large. */
  function SegmentValue(s: seq<int>): int {
    if s == [] || ValueOf(s) > PARAM_MAX then -1 else ValueOf(s)
  }

  /** Where the first semicolon is. */
  function Semicolon(s: seq<int>): (k: nat)
    ensures k <= |s|
    ensures k < |s| ==> s[k] == SEMICOLON
  {
    if s == [] || s[0] == SEMICOLON then 0 else 1 + Semicolon(s[1..])
  }

  /** The parameters that a string of digits and semicolons stands for. */
  function Parse(s: seq<int>): seq<int> {
    var k := Semicolon(s);
    if k == |s| then [SegmentValue(s)] else [SegmentValue(s[..k])] + Parse(s[k + 1..])
  }

  lemma ParseStep(s: seq<int>)
    ensures var k := Semicolon(s);
            Parse(s) == if k == |s| then [SegmentValue(s)] else [SegmentValue(s[..k])] + Parse(s[k + 1..])
  {
    hide SegmentValue, Semicolon;
  }

  function Joined(ps: seq<nat>): seq<int>
    requires ps != []
  {
    if |ps| == 1 then Decimal(ps[0]) else Decimal(ps[0]) + [SEMICOLON] + Joined(ps[1..])
  }

  ghost predicate AllDigits(s: seq<int>) {
    forall i | 0 <= i < |s| :: Digit(s[i])
  }

  lemma {:induction false} DecimalValue(n: nat)
    ensures ValueOf(Decimal(n)) == n && Decimal(n) != [] && AllDigits(Decimal(n))
  {
    if n >= 10 {
      DecimalValue(n / 10);
      assert Decimal(n)[..|Decimal(n)| - 1] == Decimal(n / 10);
    }
  }

  lemma {:induction false} SemicolonAfter(digits: seq<int>, rest: seq<int>)
    requires AllDigits(digits)
    ensures Semicolon(digits + rest) == |digits| + Semicolon(rest)
  {
    if digits == [] {
      assert digits + rest == rest;
    } else {
      SemicolonAfter(digits[1..], rest);
      assert (digits + rest)[1..] == digits[1..] + rest;
    }
  }

  /** Reading parameters undoes writing them. */
  lemma {:induction false} ParseJoined(ps: seq<nat>)
    requires ps != [] && forall i | 0 <= i < |ps| :: ps[i] <= PARAM_MAX
    ensures Parse(Joined(ps)) == ps
  {
    hide ValueOf, Semicolon, Parse, Decimal;
    ParseStep(Joined(ps));
    var first := Decimal(ps[0]);
    DecimalValue(ps[0]);
    if |ps| == 1 {
      SemicolonAfter(first, []);
      assert first + [] == first && Semicolon([]) == 0 by { SemicolonFirst([]); }
    } else {
      var rest := [SEMICOLON] + Joined(ps[1..]);
      var s := first + rest;
      assert Joined(ps) == s;
      SemicolonAfter(first, rest);
      assert Semicolon(rest) == 0 by { SemicolonFirst(rest); }
      assert s[..|first|] == first && s[|first| + 1..] == Joined(ps[1..]);
      ParseJoined(ps[1..]);
    }
  }

  lemma SemicolonFirst(s: seq<int>)
    ensures s == [] || s[0] == SEMICOLON ==> Semicolon(s) == 0
  {
  }

  /** A parameter, or its default if it is missing, too large or 0. */
  function ParamAt(params: seq<int>, n: nat, default_: int): int {
    var value := if n < |params| then params[n] else default_;
    if value < 1 then default_ else value
  }

  lemma {:induction false} DecimalLength(n: nat, digits: nat)
    requires 0 < digits && n < Tens(digits)
    ensures |Decimal(n)| <= digits
  {
    if n >= 10 { DecimalLength(n / 10, digits - 1); }
  }

  function Tens(k: nat): nat {
    if k == 0 then 1 else 10 * Tens(k - 1)
  }

  lemma {:induction false} JoinedLength(ps: seq<nat>, digits: nat)
    requires ps != [] && 0 < digits && forall i | 0 <= i < |ps| :: ps[i] < Tens(digits)
    ensures |Joined(ps)| <= (digits + 1) * |ps| - 1
  {
    DecimalLength(ps[0], digits);
    if |ps| > 1 { JoinedLength(ps[1..], digits); }
  }

  lemma {:induction false} JoinedChars(ps: seq<nat>)
    requires ps != []
    ensures forall i | 0 <= i < |Joined(ps)| :: ParamChar(Joined(ps)[i])
  {
    DecimalValue(ps[0]);
    if |ps| > 1 { JoinedChars(ps[1..]); }
  }

  class Dispatcher {
    var params: seq<int>
    var parsedParams: seq<int>
    var parsed: bool
    var dispatchChars: seq<int>
    var oscString: seq<int>

    ghost predicate Valid()
      reads this
    {
      && |params| <= 100 && (forall i | 0 <= i < |params| :: ParamChar(params[i]))
      && (parsed ==> parsedParams == Parse(params))
      && |dispatchChars| <= 8 && |oscString| <= MAXIMUM_CLIPBOARD_SIZE
    }

    constructor ()
      ensures Valid() && params == [] && dispatchChars == [] && oscString == []
    {
      params, parsedParams, parsed, dispatchChars, oscString := [], [], false, [], [];
    }

    constructor Copy(other: Dispatcher)
      requires other.Valid()
      ensures Valid() && params == other.params && dispatchChars == other.dispatchChars && oscString == other.oscString
    {
      params, parsedParams, parsed := other.params, other.parsedParams, other.parsed;
      dispatchChars, oscString := other.dispatchChars, other.oscString;
    }

    method NewParamChar(ch: int)
      requires Valid() && ParamChar(ch)
      modifies this`params, this`parsed
      ensures Valid() && params == if |old(params)| < 100 then old(params) + [ch] else old(params)
    {
      if |params| < 100 {
        params := params + [ch];
      }
      parsed := false;
    }

    method Collect(ch: int)
      requires Valid()
      modifies this`dispatchChars
      ensures Valid()
      ensures dispatchChars == if |old(dispatchChars)| < 8 && ch <= 255 then old(dispatchChars) + [ch] else old(dispatchChars)
    {
      if |dispatchChars| < 8 && ch <= 255 {
        dispatchChars := dispatchChars + [ch];
      }
    }

    method Clear()
      requires Valid()
      modifies this`params, this`parsed, this`dispatchChars
      ensures Valid() && params == [] && dispatchChars == []
    {
      params, dispatchChars, parsed := [], [], false;
    }

    method OscStart()
      requires Valid()
      modifies this`oscString
      ensures Valid() && oscString == []
    {
      oscString := [];
    }

    method OscPut(ch: int)
      requires Valid()
      modifies this`oscString
      ensures Valid()
      ensures oscString == if |old(oscString)| < MAXIMUM_CLIPBOARD_SIZE then old(oscString) + [ch] else old(oscString)
    {
      if |oscString| < MAXIMUM_CLIPBOARD_SIZE {
        oscString := oscString + [ch];
      }
    }

    method ParseParams()
      requires Valid()
      modifies this`parsed, this`parsedParams
      ensures Valid() && parsed
    {
      hide SegmentValue, Semicolon, Parse;
      if parsed {
        return;
      }
      parsedParams := [];
      var begin := 0;
      assert params[0..] == params && [] + Parse(params) == Parse(params);
      while true
        invariant 0 <= begin <= |params| && !parsed
        invariant parsedParams + Parse(params[begin..]) == Parse(params)
        decreases |params| - begin
      {
        var rest := params[begin..];
        var end := Semicolon(rest);
        ParseStep(rest);
        if end == |rest| {
          break;
        }
        assert params[begin + end + 1..] == rest[end + 1..];
        ghost var value, more := SegmentValue(rest[..end]), Parse(rest[end + 1..]);
        assert parsedParams + ([value] + more) == (parsedParams + [value]) + more;
        parsedParams := parsedParams + [SegmentValue(rest[..end])];
        begin := begin + end + 1;
      }
      parsedParams := parsedParams + [SegmentValue(params[begin..])];
      parsed := true;
    }

    method ParamCount() returns (n: nat)
      requires Valid()
      modifies this`parsed, this`parsedParams
      ensures Valid() && n == |Parse(params)|
    {
      if !parsed {
        ParseParams();
      }
      n := |parsedParams|;
    }

    method GetParam(n: nat, defaultVal: int) returns (value: int)
      requires Valid()
      modifies this`parsed, this`parsedParams
      ensures Valid()
      ensures value == ParamAt(Parse(params), n, defaultVal)
    {
      value := defaultVal;
      if !parsed {
        ParseParams();
      }
      if |parsedParams| > n {
        value := parsedParams[n];
      }
      if value < 1 {
        value := defaultVal;
      }
    }
  }
}
