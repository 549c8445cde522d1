/** What the codes of "select graphic rendition" do, told from the characters that are read. */
module RenditionLaws {
  import opened Terminal
  import opened Dispatching
  import opened Graphics
  import opened Machines
  import opened Interpreter
  import opened Consoles
  import opened SequenceLaws
  import opened ModeLaws

  /** The rendition after a control sequence with these codes. */
  ghost function Selected(w: Widths, m: Machine, codes: seq<nat>): Renditions
    requires Wf(m.console) && codes != []
  {
    Shown(w, m, Sequence(Joined(codes), 'm')).screen.rendition
  }

  ghost predicate Codes(codes: seq<nat>) {
    0 < |codes| <= 16 && forall i | 0 <= i < |codes| :: codes[i] <= PARAM_MAX
  }

  lemma ReadCodes(w: Widths, m: Machine, codes: seq<nat>)
    requires Wf(m.console) && Codes(codes)
    ensures Selected(w, m, codes) == Select(codes, 0, m.console.screen.rendition)
    ensures Shown(w, m, Sequence(Joined(codes), 'm'))
         == m.console.(screen := m.console.screen.(rendition := Selected(w, m, codes)))
  {
    hide Wf, Shown, Sequence, Joined, CsiFunction, Dispatched, Select;
    SettingKeys();
    ReadValues(w, m, codes, 'm');
    SettingDispatched(SelectRendition, m.console, codes);
  }

  /** Nothing else changes, and a pending wrap stays. */
  lemma OnlyRendition(w: Widths, m: Machine, codes: seq<nat>)
    requires Wf(m.console) && Codes(codes)
    ensures var c := m.console;
            Shown(w, m, Sequence(Joined(codes), 'm')) == c.(screen := c.screen.(rendition := Selected(w, m, codes)))
  {
    hide Wf, Shown, Sequence, Joined, Selected;
    ReadCodes(w, m, codes);
  }

  // ---------------------------------------------------------------- attributes

  predicate AttributeCode(k: nat) {
    k == 1 || k == 3 || k == 4 || k == 5 || k == 7 || k == 8
  }

  /** The attribute that a code switches on. */
  predicate HasAttribute(a: Attributes, k: nat) {
    match k
    case 1 => a.bold
    case 3 => a.italic
    case 4 => a.underlined
    case 5 => a.blink
    case 7 => a.inverse
    case 8 => a.invisible
    case _ => false
  }

  /** The code that switches it off: 20 more, but for bold, whose place the end of faint takes. */
  function OffCode(k: nat): nat {
    if k == 1 then 22 else 20 + k
  }

  /** Both renditions have the same colours, and the same attributes but for one. */
  ghost predicate SameBut(r: Renditions, q: Renditions, k: nat) {
    && q.foreground == r.foreground && q.background == r.background && q.attributes.faint == r.attributes.faint
    && forall j | AttributeCode(j) && j != k :: HasAttribute(q.attributes, j) == HasAttribute(r.attributes, j)
  }

  lemma OneCode(r: Renditions, k: nat)
    requires k != 38 && k != 48
    ensures Select([k], 0, r) == SetOne(r, k)
  {
    hide SetOne;
    assert Select([k], 1, SetOne(r, k)) == SetOne(r, k);
  }

  /** Each on code sets its attribute and nothing else. */
  lemma OnMeans(w: Widths, m: Machine, k: nat)
    requires Wf(m.console) && AttributeCode(k)
    ensures var q := Selected(w, m, [k]); HasAttribute(q.attributes, k) && SameBut(m.console.screen.rendition, q, k)
  {
    hide Wf, Selected, Select;
    ReadCodes(w, m, [k]);
    OneCode(m.console.screen.rendition, k);
  }

  /** Each off code clears it and nothing else. */
  lemma OffMeans(w: Widths, m: Machine, k: nat)
    requires Wf(m.console) && AttributeCode(k)
    ensures var q := Selected(w, m, [OffCode(k)]); !HasAttribute(q.attributes, k) && SameBut(m.console.screen.rendition, q, k)
  {
    hide Wf, Selected, Select;
    ReadCodes(w, m, [OffCode(k)]);
    OneCode(m.console.screen.rendition, OffCode(k));
  }

  /** 0 resets everything. */
  lemma PlainMeans(w: Widths, m: Machine)
    requires Wf(m.console)
    ensures Selected(w, m, [0]) == Plain(0)
  {
    hide Wf, Selected, Select;
    ReadCodes(w, m, [0]);
    OneCode(m.console.screen.rendition, 0);
  }

  // ---------------------------------------------------------------- colours

  /** An indexed colour is 30, or 40 for the background, plus its index; larger indices mean nothing. */
  lemma IndexedMeans(w: Widths, m: Machine, n: nat)
    requires Wf(m.console) && n <= PARAM_MAX
    ensures var r := m.console.screen.rendition;
            && Selected(w, m, [38, 5, n]) == (if n <= 255 then r.(foreground := 30 + n) else r)
            && Selected(w, m, [48, 5, n]) == (if n <= 255 then r.(background := 40 + n) else r)
  {
    hide Wf, Selected, MakeTrueColor, SetOne;
    ReadCodes(w, m, [38, 5, n]);
    ReadCodes(w, m, [48, 5, n]);
    var r := m.console.screen.rendition;
    assert Small([38, 5, n], 2) == n == Small([48, 5, n], 2);
    assert Select([38, 5, n], 3, SetForeground(r, n)) == SetForeground(r, n);
    assert Select([48, 5, n], 3, SetBackground(r, n)) == SetBackground(r, n);
  }

  /** The short codes are the first sixteen indexed colours, eight of them bright. */
  lemma ShortMeans(w: Widths, m: Machine, k: nat)
    requires Wf(m.console) && k < 8
    ensures Selected(w, m, [30 + k]) == Selected(w, m, [38, 5, k]) && Selected(w, m, [90 + k]) == Selected(w, m, [38, 5, 8 + k])
    ensures Selected(w, m, [40 + k]) == Selected(w, m, [48, 5, k]) && Selected(w, m, [100 + k]) == Selected(w, m, [48, 5, 8 + k])
  {
    hide Wf, Selected, Select;
    var r := m.console.screen.rendition;
    IndexedMeans(w, m, k);
    IndexedMeans(w, m, 8 + k);
    ReadCodes(w, m, [30 + k]);
    ReadCodes(w, m, [90 + k]);
    ReadCodes(w, m, [40 + k]);
    ReadCodes(w, m, [100 + k]);
    OneCode(r, 30 + k);
    OneCode(r, 90 + k);
    OneCode(r, 40 + k);
    OneCode(r, 100 + k);
  }

  /** The default colours. */
  lemma DefaultMeans(w: Widths, m: Machine)
    requires Wf(m.console)
    ensures var r := m.console.screen.rendition;
            Selected(w, m, [39]) == r.(foreground := 0) && Selected(w, m, [49]) == r.(background := 0)
  {
    hide Wf, Selected, Select;
    ReadCodes(w, m, [39]);
    ReadCodes(w, m, [49]);
    OneCode(m.console.screen.rendition, 39);
    OneCode(m.console.screen.rendition, 49);
  }

  /** A true colour is its three components in three bytes below bit 24. */
  lemma TrueColorMeans(w: Widths, m: Machine, red: nat, green: nat, blue: nat)
    requires Wf(m.console) && red < 0x100 && green < 0x100 && blue < 0x100
    ensures var r, color := m.console.screen.rendition, TRUE_COLOR + red * 0x10000 + green * 0x100 + blue;
            && Selected(w, m, [38, 2, red, green, blue]) == r.(foreground := color)
            && Selected(w, m, [48, 2, red, green, blue]) == r.(background := color)
  {
    hide Wf, Selected, MakeTrueColor, Select;
    ReadCodes(w, m, [38, 2, red, green, blue]);
    ReadCodes(w, m, [48, 2, red, green, blue]);
    TrueColorParts(red, green, blue);
    SelectTrue(38, red, green, blue, m.console.screen.rendition);
    SelectTrue(48, red, green, blue, m.console.screen.rendition);
  }

  lemma SelectTrue(code: nat, red: nat, green: nat, blue: nat, r: Renditions)
    requires code == 38 || code == 48
    ensures var color := MakeTrueColor(red, green, blue);
            Select([code, 2, red, green, blue], 0, r) == if code == 38 then SetForeground(r, color) else SetBackground(r, color)
  {
    hide MakeTrueColor, SetOne, SetForeground, SetBackground;
    var codes: seq<nat> := [code, 2, red, green, blue];
    assert Small(codes, 2) == red && Small(codes, 3) == green && Small(codes, 4) == blue;
    var color := MakeTrueColor(red, green, blue);
    var q := if code == 38 then SetForeground(r, color) else SetBackground(r, color);
    assert Select(codes, 5, q) == q;
  }

  /** All other codes mean nothing. */
  predicate KnownCode(n: nat) {
    || n == 0 || AttributeCode(n) || (20 < n && AttributeCode(n - 20) && n != 21) || n == 22
    || 30 <= n <= 49 || 90 <= n <= 97 || 100 <= n <= 107
  }

  lemma UnknownMeans(w: Widths, m: Machine, n: nat)
    requires Wf(m.console) && n <= PARAM_MAX && !KnownCode(n)
    ensures Selected(w, m, [n]) == m.console.screen.rendition
  {
    hide Wf, Selected, Select;
    ReadCodes(w, m, [n]);
    OneCode(m.console.screen.rendition, n);
  }

  // ---------------------------------------------------------------- several codes

  /** Codes take effect one after the other. */
  lemma CodesInTurn(w: Widths, m: Machine, first: nat, rest: seq<nat>)
    requires Wf(m.console) && first != 38 && first != 48 && Codes([first] + rest) && rest != []
    ensures var d := Shown(w, m, Sequence(Joined([first]), 'm'));
            Wf(d) && Selected(w, m, [first] + rest) == Selected(w, m.(console := d), rest)
  {
    hide Wf, Shown, Sequence, Joined, Selected, Select;
    var all: seq<nat> := [first] + rest;
    assert all[0] == first && forall i | 0 <= i < |rest| :: rest[i] == all[i + 1];
    ReadCodes(w, m, all);
    ReadCodes(w, m, [first]);
    RenditionWf(m.console, Selected(w, m, [first]));
    var d := Shown(w, m, Sequence(Joined([first]), 'm'));
    ReadCodes(w, m.(console := d), rest);
    var r := m.console.screen.rendition;
    OneCode(r, first);
    SelectFlag(true, first, rest, r);
  }

  lemma RenditionWf(c: Console, r: Renditions)
    requires Wf(c)
    ensures Wf(c.(screen := c.screen.(rendition := r)))
  {
    hide Clean, Grid;
  }
}
