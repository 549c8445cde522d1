/** Renditions: how they are set by parameters of "select graphic rendition" (section 8.3.117 of ECMA-48), and how
    they are written as such parameters. */
module Graphics {
  import opened Dispatching
  import opened Terminal

  const TRUE_COLOR := 0x1000000

  function Max(a: nat, b: nat): nat {
    if a < b then b else a
  }

  /** Bitwise or. */
  function Or(a: nat, b: nat): nat {
    if a == 0 && b == 0 then 0 else 2 * Or(a / 2, b / 2) + Max(a % 2, b % 2)
  }

  /** A colour made of components that may be too large; 25 bits of it are kept. */
  function MakeTrueColor(red: nat, green: nat, blue: nat): nat {
    Or(Or(Or(TRUE_COLOR, red * 0x10000), green * 0x100), blue) % 0x2000000
  }

  /** Bit 24. */
  predicate IsTrueColor(color: nat) {
    color / TRUE_COLOR % 2 == 1
  }

  /** Colours are kept in fields of 25 bits. */
  function SetForeground(r: Renditions, num: nat): Renditions {
    if num <= 255 then r.(foreground := 30 + num)
    else if IsTrueColor(num) then r.(foreground := num % 0x2000000)
    else r
  }

  function SetBackground(r: Renditions, num: nat): Renditions {
    if num <= 255 then r.(background := 40 + num)
    else if IsTrueColor(num) then r.(background := num % 0x2000000)
    else r
  }

  function Switched(num: nat, on: nat, off: nat, was: bool): bool {
    if num == on then true else if num == off then false else was
  }

  /** Each attribute has a code that switches it on and one that switches it off. */
  function SetAttribute(a: Attributes, num: nat): Attributes {
    Attributes(
      Switched(num, 1, 22, a.bold), a.faint, Switched(num, 3, 23, a.italic), Switched(num, 4, 24, a.underlined),
      Switched(num, 5, 25, a.blink), Switched(num, 7, 27, a.inverse), Switched(num, 8, 28, a.invisible))
  }

  /** `Renditions::set_rendition`, for everything but the large colour sets. */
  function SetOne(r: Renditions, num: nat): Renditions {
    if num == 0 then Plain(0)
    else if num == 39 then r.(foreground := 0)
    else if num == 49 then r.(background := 0)
    else if 30 <= num <= 37 then r.(foreground := num)
    else if 40 <= num <= 47 then r.(background := num)
    else if 90 <= num <= 97 then r.(foreground := num - 90 + 38)
    else if 100 <= num <= 107 then r.(background := num - 100 + 48)
    else r.(attributes := SetAttribute(r.attributes, num))
  }

  function Small(params: seq<int>, n: nat): nat {
    ParamAt(params, n, 0)
  }

  /** What the parameters from `i` on do to the rendition. */
  function Select(params: seq<int>, i: nat, r: Renditions): Renditions
    decreases |params| - i
  {
    if i >= |params| then r
    else
      var code := Small(params, i);
      if (code == 38 || code == 48) && |params| - i >= 3 && ParamAt(params, i + 1, -1) == 5 then
        var color := Small(params, i + 2);
        Select(params, i + 3, if code == 38 then SetForeground(r, color) else SetBackground(r, color))
      else if (code == 38 || code == 48) && |params| - i >= 5 && ParamAt(params, i + 1, -1) == 2 then
        var color := MakeTrueColor(Small(params, i + 2), Small(params, i + 3), Small(params, i + 4));
        Select(params, i + 5, if code == 38 then SetForeground(r, color) else SetBackground(r, color))
      else Select(params, i + 1, SetOne(r, code))
  }

  /** The loop of `CSI_SGR`. */
  method SelectGraphicRendition(d: Dispatcher, before: Renditions) returns (r: Renditions)
    requires d.Valid()
    modifies d`parsed, d`parsedParams
    ensures d.Valid() && r == Select(Parse(d.params), 0, before)
  {
    hide MakeTrueColor, SetForeground, SetBackground, SetOne, Parse;
    r := before;
    var i := 0;
    ghost var params := Parse(d.params);
    var count := d.ParamCount();
    while i < count
      invariant 0 <= i && d.Valid() && count == |params|
      invariant Select(params, i, r) == Select(params, 0, before)
    {
      var code := d.GetParam(i, 0);
      var kind := d.GetParam(i + 1, -1);
      if (code == 38 || code == 48) && count - i >= 3 && kind == 5 {
        var color := d.GetParam(i + 2, 0);
        r := if code == 38 then SetForeground(r, color) else SetBackground(r, color);
        i := i + 3;
        continue;
      }
      if (code == 38 || code == 48) && count - i >= 5 && kind == 2 {
        var red := d.GetParam(i + 2, 0);
        var green := d.GetParam(i + 3, 0);
        var blue := d.GetParam(i + 4, 0);
        var color := MakeTrueColor(red, green, blue);
        r := if code == 38 then SetForeground(r, color) else SetBackground(r, color);
        i := i + 5;
        continue;
      }
      r := SetOne(r, code);
      i := i + 1;
    }
  }

  // ---------------------------------------------------------------- writing

  function Flag(on: bool, code: nat): seq<nat> {
    if on then [code] else []
  }

  function Flags(a: Attributes): seq<nat> {
    Flag(a.bold, 1) + Flag(a.italic, 3) + Flag(a.underlined, 4) + Flag(a.blink, 5) + Flag(a.inverse, 7)
      + Flag(a.invisible, 8)
  }

  function Components(color: nat): seq<nat> {
    [color / 0x100 / 0x100 % 0x100, color / 0x100 % 0x100, color % 0x100]
  }

  /** A colour as parameters: `code` is 38 or 48, and colours below it are written as they are. */
  function ColorParams(color: nat, code: nat): seq<nat> {
    if color == 0 then []
    else if IsTrueColor(color) then [code, 2] + Components(color)
    else if color >= code then [code, 5, color - (code - 8)]
    else [color]
  }

  /** The parameters of `Renditions::sgr`. */
  function SgrParams(r: Renditions): seq<nat> {
    [0] + Flags(r.attributes) + ColorParams(r.foreground, 38) + ColorParams(r.background, 48)
  }

  predicate ColorOk(color: nat, low: nat) {
    color == 0 || low <= color <= low + 255 || TRUE_COLOR <= color < 2 * TRUE_COLOR
  }

  /** The renditions that the setters can make. */
  predicate Reachable(r: Renditions) {
    ColorOk(r.foreground, 30) && ColorOk(r.background, 40) && !r.attributes.faint
  }

  // ---------------------------------------------------------------- round trip

  function Power(k: nat): nat {
    if k == 0 then 1 else 2 * Power(k - 1)
  }

  lemma Powers()
    ensures Power(8) == 0x100 && Power(16) == 0x10000 && Power(24) == TRUE_COLOR
  {
    assert Power(4) == 0x10;
    assert Power(8) == 0x100;
    assert Power(12) == 0x1000;
    assert Power(16) == 0x10000;
    assert Power(20) == 0x100000;
  }

  lemma {:induction false} OrZero(a: nat)
    ensures Or(a, 0) == a
  {
    if a > 0 { OrZero(a / 2); }
  }

  /** Bits that do not meet add up. */
  lemma {:induction false} OrHigh(hi: nat, lo: nat, k: nat)
    requires lo < Power(k)
    ensures Or(hi * Power(k), lo) == hi * Power(k) + lo
  {
    if k == 0 {
      OrZero(hi);
    } else {
      assert hi * Power(k) == 2 * (hi * Power(k - 1));
      OrHigh(hi, lo / 2, k - 1);
    }
  }

  lemma TrueColorParts(red: nat, green: nat, blue: nat)
    requires red < 0x100 && green < 0x100 && blue < 0x100
    ensures MakeTrueColor(red, green, blue) == TRUE_COLOR + red * 0x10000 + green * 0x100 + blue
  {
    hide Or, Power;
    Powers();
    OrHigh(1, red * 0x10000, 24);
    var a := TRUE_COLOR + red * 0x10000;
    assert a == (0x100 + red) * 0x10000;
    OrHigh(0x100 + red, green * 0x100, 16);
    var b := a + green * 0x100;
    assert b == (0x10000 + red * 0x100 + green) * 0x100;
    OrHigh(0x10000 + red * 0x100 + green, blue, 8);
  }

  lemma ComponentsColor(color: nat)
    requires TRUE_COLOR <= color < 2 * TRUE_COLOR
    ensures var c := Components(color); MakeTrueColor(c[0], c[1], c[2]) == color
  {
    hide MakeTrueColor;
    var c := Components(color);
    TrueColorParts(c[0], c[1], c[2]);
    var high := color / 0x100 / 0x100;
    assert 0x100 <= high < 0x200 && c[0] == high - 0x100;
  }

  /** Parameters act one after the other, whatever stands before them. */
  lemma {:induction false} SelectDrop(params: seq<int>, i: nat, n: nat, r: Renditions)
    requires i + n <= |params|
    ensures Select(params, i + n, r) == Select(params[i..], n, r)
    decreases |params| - n
  {
    hide MakeTrueColor, SetForeground, SetBackground, SetOne;
    var rest := params[i..];
    if n < |rest| {
      var code := Small(rest, n);
      if (code == 38 || code == 48) && |rest| - n >= 3 && ParamAt(rest, n + 1, -1) == 5 {
        var color := Small(rest, n + 2);
        SelectDrop(params, i, n + 3, if code == 38 then SetForeground(r, color) else SetBackground(r, color));
      } else if (code == 38 || code == 48) && |rest| - n >= 5 && ParamAt(rest, n + 1, -1) == 2 {
        var color := MakeTrueColor(Small(rest, n + 2), Small(rest, n + 3), Small(rest, n + 4));
        SelectDrop(params, i, n + 5, if code == 38 then SetForeground(r, color) else SetBackground(r, color));
      } else {
        SelectDrop(params, i, n + 1, SetOne(r, code));
      }
    }
  }

  lemma SelectFlag(on: bool, code: nat, rest: seq<int>, r: Renditions)
    requires code != 38 && code != 48
    ensures Select(Flag(on, code) + rest, 0, r) == Select(rest, 0, if on then SetOne(r, code) else r)
  {
    hide SetOne;
    if on {
      SelectDrop([code] + rest, 1, 0, SetOne(r, code));
      assert ([code] + rest)[1..] == rest;
    } else {
      assert [] + rest == rest;
    }
  }

  /** A colour set in the foreground for `code` 38, and in the background for 48. */
  function SetColor(r: Renditions, code: nat, color: nat): Renditions {
    if code == 38 then r.(foreground := color) else r.(background := color)
  }

  lemma SelectColor(color: nat, code: nat, rest: seq<int>, r: Renditions)
    requires code == 38 || code == 48
    requires color != 0 && ColorOk(color, code - 8)
    ensures Select(ColorParams(color, code) + rest, 0, r) == Select(rest, 0, SetColor(r, code, color))
  {
    hide MakeTrueColor, SetOne;
    var all: seq<int> := ColorParams(color, code) + rest;
    var n := |ColorParams(color, code)|;
    assert IsTrueColor(color) <==> TRUE_COLOR <= color;
    if IsTrueColor(color) { ComponentsColor(color); }
    assert all[n..] == rest;
    SelectDrop(all, n, 0, SetColor(r, code, color));
    if color < code { SetSmall(r, code, color); }
  }

  lemma SetSmall(r: Renditions, code: nat, color: nat)
    requires code == 38 || code == 48
    requires code - 8 <= color < code
    ensures SetOne(r, color) == SetColor(r, code, color)
  {
    hide SetAttribute;
  }

  lemma SelectMaybe(color: nat, code: nat, rest: seq<int>, r: Renditions)
    requires code == 38 || code == 48
    requires ColorOk(color, code - 8)
    ensures Select(ColorParams(color, code) + rest, 0, r)
         == Select(rest, 0, if color == 0 then r else SetColor(r, code, color))
  {
    hide Select;
    if color == 0 {
      assert [] + rest == rest;
    } else {
      SelectColor(color, code, rest, r);
    }
  }

  function Given(on: bool, code: nat, r: Renditions): Renditions {
    if on then SetOne(r, code) else r
  }

  lemma SelectThree(a: bool, b: bool, c: bool, x: nat, y: nat, z: nat, rest: seq<int>, r: Renditions)
    requires x < 38 && y < 38 && z < 38
    ensures Select(Flag(a, x) + Flag(b, y) + Flag(c, z) + rest, 0, r)
         == Select(rest, 0, Given(c, z, Given(b, y, Given(a, x, r))))
  {
    hide Select, Flag, SetOne;
    var last: seq<int> := Flag(c, z) + rest;
    var more: seq<int> := Flag(b, y) + last;
    assert Flag(a, x) + Flag(b, y) + Flag(c, z) + rest == Flag(a, x) + more;
    SelectFlag(a, x, more, r);
    SelectFlag(b, y, last, Given(a, x, r));
    SelectFlag(c, z, rest, Given(b, y, Given(a, x, r)));
  }

  lemma FirstThree(b: bool, i: bool, u: bool)
    ensures Given(u, 4, Given(i, 3, Given(b, 1, Plain(0)))) == Renditions(0, 0, Attributes(b, false, i, u, false, false, false))
  {
  }

  lemma LastThree(b: bool, i: bool, u: bool, k: bool, v: bool, n: bool)
    ensures Given(n, 8, Given(v, 7, Given(k, 5, Renditions(0, 0, Attributes(b, false, i, u, false, false, false)))))
         == Renditions(0, 0, Attributes(b, false, i, u, k, v, n))
  {
  }

  lemma SelectAttributes(a: Attributes, rest: seq<int>)
    requires !a.faint
    ensures Select(Flags(a) + rest, 0, Plain(0)) == Select(rest, 0, Renditions(0, 0, a))
  {
    hide Select, Flag, Given;
    var more: seq<int> := Flag(a.blink, 5) + Flag(a.inverse, 7) + Flag(a.invisible, 8) + rest;
    assert Flags(a) + rest == Flag(a.bold, 1) + Flag(a.italic, 3) + Flag(a.underlined, 4) + more;
    SelectThree(a.bold, a.italic, a.underlined, 1, 3, 4, more, Plain(0));
    FirstThree(a.bold, a.italic, a.underlined);
    SelectThree(a.blink, a.inverse, a.invisible, 5, 7, 8, rest,
                Renditions(0, 0, Attributes(a.bold, false, a.italic, a.underlined, false, false, false)));
    LastThree(a.bold, a.italic, a.underlined, a.blink, a.inverse, a.invisible);
  }

  /** The parameters written for a rendition select it, whatever was selected before. */
  lemma SgrRoundTrip(r: Renditions, before: Renditions)
    requires Reachable(r)
    ensures Select(SgrParams(r), 0, before) == r
  {
    hide Select, Flags, ColorParams;
    var colors: seq<int> := ColorParams(r.foreground, 38) + ColorParams(r.background, 48);
    assert SgrParams(r) == Flag(true, 0) + (Flags(r.attributes) + colors);
    SelectFlag(true, 0, Flags(r.attributes) + colors, before);
    SelectAttributes(r.attributes, colors);
    var bare := r.(foreground := 0, background := 0);
    SelectMaybe(r.foreground, 38, ColorParams(r.background, 48), bare);
    assert ColorParams(r.background, 48) == ColorParams(r.background, 48) + [];
    SelectMaybe(r.background, 48, [], r.(background := 0));
    SelectNothing(r);
  }

  lemma SelectNothing(r: Renditions)
    ensures Select([], 0, r) == r
  {
  }

  lemma OneReachable(r: Renditions, num: nat)
    requires Reachable(r)
    ensures Reachable(SetOne(r, num))
  {
    hide ColorOk, Switched;
    ColorRange(0);
    ColorRange(num);
    if 90 <= num <= 97 { ColorRange(num - 90 + 38); }
    if 100 <= num <= 107 { ColorRange(num - 100 + 48); }
  }

  lemma ColorRange(color: nat)
    ensures color == 0 || 30 <= color <= 285 || TRUE_COLOR <= color < 2 * TRUE_COLOR ==> ColorOk(color, 30)
    ensures color == 0 || 40 <= color <= 295 || TRUE_COLOR <= color < 2 * TRUE_COLOR ==> ColorOk(color, 40)
  {
  }

  lemma TrueColorKept(num: nat)
    requires IsTrueColor(num)
    ensures TRUE_COLOR <= num % 0x2000000 < 2 * TRUE_COLOR
  {
    var q, r := num / 0x2000000, num % 0x2000000;
    assert num / TRUE_COLOR == 2 * q + r / TRUE_COLOR;
  }

  lemma ColorReachable(r: Renditions, num: nat)
    requires Reachable(r)
    ensures Reachable(SetForeground(r, num)) && Reachable(SetBackground(r, num))
  {
    hide ColorOk, IsTrueColor;
    if IsTrueColor(num) { TrueColorKept(num); }
    ColorRange(30 + num);
    ColorRange(40 + num);
    ColorRange(num % 0x2000000);
  }

  /** Every parameter list leads from reachable renditions to reachable ones. */
  lemma {:induction false} SelectReachable(params: seq<int>, i: nat, r: Renditions)
    requires Reachable(r)
    ensures Reachable(Select(params, i, r))
    decreases |params| - i
  {
    hide MakeTrueColor, SetForeground, SetBackground, ColorOk, SetOne;
    if i < |params| {
      var code := Small(params, i);
      if (code == 38 || code == 48) && |params| - i >= 3 && ParamAt(params, i + 1, -1) == 5 {
        var color := Small(params, i + 2);
        ColorReachable(r, color);
        SelectReachable(params, i + 3, if code == 38 then SetForeground(r, color) else SetBackground(r, color));
      } else if (code == 38 || code == 48) && |params| - i >= 5 && ParamAt(params, i + 1, -1) == 2 {
        var color := MakeTrueColor(Small(params, i + 2), Small(params, i + 3), Small(params, i + 4));
        ColorReachable(r, color);
        SelectReachable(params, i + 5, if code == 38 then SetForeground(r, color) else SetBackground(r, color));
      } else {
        OneReachable(r, code);
        SelectReachable(params, i + 1, SetOne(r, code));
      }
    }
  }

  lemma ColorBounds(color: nat, code: nat)
    requires code == 38 || code == 48
    requires ColorOk(color, code - 8)
    ensures |ColorParams(color, code)| <= 5
    ensures forall i | 0 <= i < |ColorParams(color, code)| :: ColorParams(color, code)[i] <= 255
  {
  }

  /** At most 17 parameters of at most three digits are written. */
  lemma SgrBounds(r: Renditions)
    requires Reachable(r)
    ensures 0 < |SgrParams(r)| <= 17
    ensures forall i | 0 <= i < |SgrParams(r)| :: SgrParams(r)[i] <= 255
  {
    hide ColorParams, ColorOk, Flags;
    ColorBounds(r.foreground, 38);
    ColorBounds(r.background, 48);
    FlagBounds(r.attributes);
  }

  ghost predicate Bounded(s: seq<nat>, n: nat) {
    |s| <= n && forall i | 0 <= i < |s| :: s[i] <= 255
  }

  lemma BoundedPair(a: seq<nat>, b: seq<nat>, n: nat, k: nat)
    requires Bounded(a, n) && Bounded(b, k)
    ensures Bounded(a + b, n + k)
  {
  }

  lemma FlagBounded(on: bool, code: nat)
    requires code <= 255
    ensures Bounded(Flag(on, code), 1)
  {
  }

  lemma FlagBounds(a: Attributes)
    ensures Bounded(Flags(a), 6)
  {
    hide Flag, Bounded;
    FlagBounded(a.bold, 1);
    FlagBounded(a.italic, 3);
    FlagBounded(a.underlined, 4);
    FlagBounded(a.blink, 5);
    FlagBounded(a.inverse, 7);
    FlagBounded(a.invisible, 8);
    var bi := Flag(a.bold, 1) + Flag(a.italic, 3);
    var biu := bi + Flag(a.underlined, 4);
    var biuk := biu + Flag(a.blink, 5);
    BoundedPair(Flag(a.bold, 1), Flag(a.italic, 3), 1, 1);
    BoundedPair(bi, Flag(a.underlined, 4), 2, 1);
    BoundedPair(biu, Flag(a.blink, 5), 3, 1);
    BoundedPair(biuk, Flag(a.inverse, 7), 4, 1);
    BoundedPair(biuk + Flag(a.inverse, 7), Flag(a.invisible, 8), 5, 1);
  }
}
