/** Recovering the variables of a captured render: lazy, backtracking matching with back references. */
module TemplateExtraction {
  import opened Wrappers
  import opened TemplatePattern
  import opened TemplateMeaning

  type Payload = map<string, string>

  // ---- Matching ----

  /** A full match: groups try their lengths in ascending order, and the first that lets the rest match wins. */
  function Match(items: seq<Item>, text: string, bound: Payload): Option<Payload>
    decreases |items|, |text| + 2
  {
    if items == [] then if text == [] then Some(bound) else None
    else
      match items[0]
      case Char(c) => if text != [] && text[0] == c then Match(items[1..], text[1..], bound) else None
      case Backref(v) =>
        if v in bound && bound[v] <= text then Match(items[1..], text[|bound[v]|..], bound) else None
      case Group(v) => MatchGroup(items[1..], text, bound, v, 0)
  }

  function MatchGroup(rest: seq<Item>, text: string, bound: Payload, v: string, k: nat): Option<Payload>
    decreases |rest| + 1, |text| + 1 - k
  {
    if k > |text| then None
    else
      var attempt := Match(rest, text[k..], bound[v := text[..k]]);
      if attempt.Some? then attempt else MatchGroup(rest, text, bound, v, k + 1)
  }

  /** Groups are new where they stand, and back references refer to earlier groups. */
  ghost predicate WellFormed(items: seq<Item>, bound: set<string>) {
    items != [] ==>
      match items[0]
      case Char(_) => WellFormed(items[1..], bound)
      case Group(v) => v !in bound && WellFormed(items[1..], bound + {v})
      case Backref(v) => v in bound && WellFormed(items[1..], bound)
  }

  function GroupsOf(items: seq<Item>): set<string> {
    if items == [] then {}
    else (if items[0].Group? then {items[0].name} else {}) + GroupsOf(items[1..])
  }

  /** The text a pattern stands for under a payload. */
  function Filled(items: seq<Item>, values: Payload): string {
    if items == [] then []
    else (if items[0].Char? then [items[0].c] else Value(values, items[0].name)) + Filled(items[1..], values)
  }

  ghost predicate Extends(values: Payload, bound: Payload) {
    forall v :: v in bound ==> v in values && values[v] == bound[v]
  }

  /** Compared group by group, the first difference is a shorter value. */
  ghost predicate NotAfter(items: seq<Item>, r: Payload, values: Payload) {
    items != [] ==>
      if !items[0].Group? then NotAfter(items[1..], r, values)
      else
        var v := items[0].name;
        |Value(r, v)| < |Value(values, v)| || (Value(r, v) == Value(values, v) && NotAfter(items[1..], r, values))
  }

  /** A match fills the pattern to the text. */
  lemma {:induction false} MatchFills(items: seq<Item>, text: string, bound: Payload)
    requires WellFormed(items, bound.Keys)
    ensures var r := Match(items, text, bound);
            r.Some? ==> && Extends(r.value, bound) && r.value.Keys == bound.Keys + GroupsOf(items)
                        && Filled(items, r.value) == text
    decreases |items|, |text| + 2
  {
    if items != [] {
      match items[0]
      case Char(c) =>
        if text != [] && text[0] == c {
          MatchFills(items[1..], text[1..], bound);
          assert [c] + text[1..] == text;
        }
      case Backref(v) =>
        if v in bound && bound[v] <= text {
          MatchFills(items[1..], text[|bound[v]|..], bound);
          assert bound[v] + text[|bound[v]|..] == text;
        }
      case Group(v) =>
        MatchGroupFills(items[1..], text, bound, v, 0);
    }
  }

  lemma {:induction false} MatchGroupFills(rest: seq<Item>, text: string, bound: Payload, v: string, k: nat)
    requires v !in bound && WellFormed(rest, bound.Keys + {v})
    ensures var r := MatchGroup(rest, text, bound, v, k);
            r.Some? ==> && Extends(r.value, bound) && r.value.Keys == bound.Keys + {v} + GroupsOf(rest)
                        && Value(r.value, v) + Filled(rest, r.value) == text
    decreases |rest| + 1, |text| + 1 - k
  {
    if k <= |text| {
      var now := bound[v := text[..k]];
      assert now.Keys == bound.Keys + {v};
      var attempt := Match(rest, text[k..], now);
      MatchFills(rest, text[k..], now);
      if attempt.Some? {
        GroupTaken(rest, text, bound, v, k, attempt.value);
      } else {
        MatchGroupFills(rest, text, bound, v, k + 1);
      }
    }
  }

  lemma GroupTaken(rest: seq<Item>, text: string, bound: Payload, v: string, k: nat, r: Payload)
    requires k <= |text| && v !in bound && Extends(r, bound[v := text[..k]]) && Filled(rest, r) == text[k..]
    ensures Extends(r, bound) && Value(r, v) + Filled(rest, r) == text
  {
    var now := bound[v := text[..k]];
    assert now[v] == text[..k];
    forall u | u in bound ensures u in r && r[u] == bound[u] {
      assert u in now && now[u] == bound[u];
    }
    assert text[..k] + text[k..] == text;
  }

  /** A text that some payload fills the pattern to is matched, by the payload that comes first. */
  lemma {:induction false} MatchFindsFirst(items: seq<Item>, text: string, bound: Payload, values: Payload)
    requires WellFormed(items, bound.Keys) && Extends(values, bound) && Filled(items, values) == text
    ensures Match(items, text, bound).Some? && NotAfter(items, Match(items, text, bound).value, values)
    decreases |items|, |text| + 2
  {
    if items != [] {
      match items[0]
      case Char(c) =>
        assert text[1..] == Filled(items[1..], values);
        MatchFindsFirst(items[1..], text[1..], bound, values);
      case Backref(v) =>
        assert text[|bound[v]|..] == Filled(items[1..], values);
        MatchFindsFirst(items[1..], text[|bound[v]|..], bound, values);
      case Group(v) =>
        MatchGroupFindsFirst(items[1..], text, bound, v, 0, values);
    }
  }

  lemma {:induction false} MatchGroupFindsFirst(rest: seq<Item>, text: string, bound: Payload, v: string, k: nat,
      values: Payload)
    requires v !in bound && WellFormed(rest, bound.Keys + {v}) && Extends(values, bound)
    requires Value(values, v) + Filled(rest, values) == text && k <= |Value(values, v)|
    ensures var r := MatchGroup(rest, text, bound, v, k);
            r.Some? && (|Value(r.value, v)| < |Value(values, v)|
                        || (Value(r.value, v) == Value(values, v) && NotAfter(rest, r.value, values)))
    decreases |rest| + 1, |text| + 1 - k
  {
    var now := bound[v := text[..k]];
    assert now.Keys == bound.Keys + {v};
    var attempt := Match(rest, text[k..], now);
    MatchFills(rest, text[k..], now);
    if attempt.Some? {
      assert Value(attempt.value, v) == now[v] == text[..k];
    }
    if k == |Value(values, v)| {
      assert text[..k] == Value(values, v) && text[k..] == Filled(rest, values);
      AsIf(rest, values, v);
      MatchFindsFirst(rest, text[k..], now, values[v := Value(values, v)]);
      AsIfAfter(rest, attempt.value, values, v);
    } else if attempt.None? {
      MatchGroupFindsFirst(rest, text, bound, v, k + 1, values);
    }
  }

  /** A payload without v behaves as one that has the empty value for it. */
  lemma {:induction false} AsIf(items: seq<Item>, values: Payload, v: string)
    ensures Filled(items, values[v := Value(values, v)]) == Filled(items, values)
  {
    if items != [] {
      AsIf(items[1..], values, v);
    }
  }

  lemma {:induction false} AsIfAfter(items: seq<Item>, r: Payload, values: Payload, v: string)
    ensures NotAfter(items, r, values[v := Value(values, v)]) <==> NotAfter(items, r, values)
  {
    if items != [] {
      AsIfAfter(items[1..], r, values, v);
    }
  }

  // ---- Extraction ----

  /** Which texts are Python identifiers, as str.isidentifier says. */
  type Identifiers = string -> bool

  /** A pattern compiles only if its groups are named by identifiers. */
  predicate Compiles(items: seq<Item>, identifier: Identifiers) {
    forall v :: v in GroupsOf(items) ==> identifier(v)
  }

  function Extract(rendered: string, body: string, variables: seq<string>, identifier: Identifiers): Option<Payload> {
    if Compiles(Pattern(body, variables), identifier) then Match(Pattern(body, variables), rendered, map[]) else None
  }

  ghost predicate AllIdentifiers(names: set<string>, identifier: Identifiers) {
    forall v :: v in names ==> identifier(v)
  }

  /** A template that registers, whose doubled braces spell none of its variables, and whose captured variables are
      identifiers. */
  ghost predicate Recoverable(body: string, variables: seq<string>, identifier: Identifiers) {
    && Registered(body, variables) && AllIdentifiers(PlainSlots(Parse(body).value), identifier)
    && !Disguised(Parse(body).value, SetOf(variables))
  }

  lemma {:induction false} CharsShape(s: string, rest: seq<Item>, bound: set<string>)
    ensures WellFormed(Chars(s) + rest, bound) <==> WellFormed(rest, bound)
    ensures GroupsOf(Chars(s) + rest) == GroupsOf(rest)
  {
    if s == [] {
      assert Chars(s) + rest == rest;
    } else {
      CharsShape(s[1..], rest, bound);
      CharShape(s[0], Chars(s[1..]) + rest, bound);
      CharsThen(s, rest);
    }
  }

  lemma {:induction false} CharsFilled(s: string, rest: seq<Item>, values: Payload)
    ensures Filled(Chars(s) + rest, values) == s + Filled(rest, values)
  {
    if s == [] {
      assert Chars(s) + rest == rest;
    } else {
      CharsFilled(s[1..], rest, values);
      CharsThen(s, rest);
      assert ([Char(s[0])] + (Chars(s[1..]) + rest))[1..] == Chars(s[1..]) + rest;
      Reassociate(s, Filled(rest, values));
    }
  }

  lemma {:induction false} PatternShape(segs: seq<Seg>, seen: set<string>)
    ensures WellFormed(PatternOf(segs, seen), seen)
    ensures GroupsOf(PatternOf(segs, seen)) + seen == PlainSlots(segs) + seen
  {
    if segs == [] {
      assert PlainSlots(segs) == {};
    } else {
      var next := if segs[0].Slot? then seen + {segs[0].name} else seen;
      var rest := PatternOf(segs[1..], next);
      PatternShape(segs[1..], next);
      PlainSlotsHead(segs);
      match segs[0]
      case Lit(c) => CharShape(c, rest, seen);
      case Slot(name) => MarkShape(name, seen, rest);
      case Formatted(name, suffix) => CharsShape(Token(name + suffix), rest, seen);
    }
  }

  lemma PlainSlotsHead(segs: seq<Seg>)
    requires segs != []
    ensures PlainSlots(segs) == (if segs[0].Slot? then {segs[0].name} else {}) + PlainSlots(segs[1..])
  {
    assert segs == [segs[0]] + segs[1..];
  }

  /** Filled, the pattern is the render in which formatted slots show themselves. */
  lemma {:induction false} PatternFills(segs: seq<Seg>, seen: set<string>, values: Payload)
    ensures Filled(PatternOf(segs, seen), values) == Render(segs, values, Unformatted)
  {
    if segs != [] {
      var next := if segs[0].Slot? then seen + {segs[0].name} else seen;
      var rest := PatternOf(segs[1..], next);
      PatternFills(segs[1..], next, values);
      match segs[0]
      case Lit(c) => assert ([Char(c)] + rest)[1..] == rest;
      case Slot(name) => assert ([Mark(name, seen)] + rest)[1..] == rest;
      case Formatted(name, suffix) => CharsFilled(Token(name + suffix), rest, values);
    }
  }

  lemma TemplateShape(body: string, variables: seq<string>, identifier: Identifiers)
    requires Recoverable(body, variables, identifier)
    ensures var p := Pattern(body, variables);
            WellFormed(p, {}) && GroupsOf(p) == PlainSlots(Parse(body).value) && Compiles(p, identifier)
            && forall values: Payload :: Filled(p, values) == Render(Parse(body).value, values, Unformatted)
  {
    var segs := Parse(body).value;
    RegisteredNames(body, variables);
    PatternIsFaithfulIff(body, variables);
    PatternShape(segs, {});
    forall values: Payload ensures Filled(Pattern(body, variables), values) == Render(segs, values, Unformatted) {
      PatternFills(segs, {}, values);
    }
  }

  /** What is recovered re-renders to the input, and every text the template can render is accepted, formatted slots
      showing themselves. */
  lemma ExtractionInvertsRendering(rendered: string, body: string, variables: seq<string>,
      identifier: Identifiers)
    requires Recoverable(body, variables, identifier)
    ensures var payload := Extract(rendered, body, variables, identifier);
            payload.Some? ==> && payload.value.Keys == PlainSlots(Parse(body).value)
                              && Render(Parse(body).value, payload.value, Unformatted) == rendered
    ensures Extract(rendered, body, variables, identifier).Some?
       <==> exists values: Payload :: Render(Parse(body).value, values, Unformatted) == rendered
  {
    var items, segs := Pattern(body, variables), Parse(body).value;
    var none: Payload := map[];
    assert none.Keys == {};
    TemplateShape(body, variables, identifier);
    MatchFills(items, rendered, none);
    if values: Payload :| Render(segs, values, Unformatted) == rendered {
      assert Filled(items, values) == rendered;
      MatchFindsFirst(items, rendered, none, values);
    }
  }

  /** The payload a render was made with is recovered exactly when it comes first among those that render the same. */
  lemma RecoveredIffFirst(body: string, variables: seq<string>, identifier: Identifiers, values: Payload)
    requires Recoverable(body, variables, identifier) && values.Keys == PlainSlots(Parse(body).value)
    ensures var segs := Parse(body).value;
            Extract(Render(segs, values, Unformatted), body, variables, identifier) == Some(values)
            <==> forall other: Payload :: other.Keys == PlainSlots(segs) && Render(segs, other, Unformatted) == Render(segs, values, Unformatted)
                   ==> NotAfter(Pattern(body, variables), values, other)
  {
    var items, segs := Pattern(body, variables), Parse(body).value;
    var none: Payload := map[];
    assert none.Keys == {};
    TemplateShape(body, variables, identifier);
    ExtractionInvertsRendering(Render(segs, values, Unformatted), body, variables, identifier);
    forall other: Payload | other.Keys == PlainSlots(segs) && Render(segs, other, Unformatted) == Render(segs, values, Unformatted)
      ensures Extract(Render(segs, values, Unformatted), body, variables, identifier).Some?
      ensures NotAfter(items, Extract(Render(segs, values, Unformatted), body, variables, identifier).value, other)
    {
      assert Filled(items, other) == Render(segs, values, Unformatted);
      MatchFindsFirst(items, Render(segs, values, Unformatted), none, other);
    }
    var r := Extract(Render(segs, values, Unformatted), body, variables, identifier).value;
    if NotAfter(items, values, r) {
      SamePlace(items, r, values);
      forall v | v in values ensures r[v] == values[v] {
        assert Value(r, v) == Value(values, v);
      }
      assert r == values;
    }
  }

  lemma {:induction false} SamePlace(items: seq<Item>, r: Payload, values: Payload)
    requires NotAfter(items, r, values) && NotAfter(items, values, r)
    ensures forall v :: v in GroupsOf(items) ==> Value(r, v) == Value(values, v)
  {
    if items != [] {
      SamePlace(items[1..], r, values);
    }
  }

  // ---- Which renders are refused ----

  lemma {:induction false} BuiltShape(segs: seq<Seg>, vars: set<string>, seen: set<string>)
    ensures WellFormed(Built(segs, vars, seen, {}), seen)
    ensures PlainSlots(segs) <= GroupsOf(Built(segs, vars, seen, {})) + seen
    decreases |segs|
  {
    if segs == [] {
    } else if segs[0].Slot? {
      BuiltShape(segs[1..], vars, seen + {segs[0].name});
      MarkShape(segs[0].name, seen, Built(segs[1..], vars, seen + {segs[0].name}, {}));
      PlainSlotsHead(segs);
    } else if segs[0].Formatted? {
      BuiltShape(segs[1..], vars, seen);
      CharsShape(Token(segs[0].name + segs[0].suffix), Built(segs[1..], vars, seen, {}), seen);
      PlainSlotsHead(segs);
    } else if DisguiseAt(segs, vars).Some? {
      var v := DisguiseAt(segs, vars).value;
      DisguiseHead(segs, vars);
      BuiltShape(segs[|v| + 2..], vars, seen + {v});
      HiddenShape(v, seen, Built(segs[|v| + 2..], vars, seen + {v}, {}));
      SlotsAfterLits(Token(v), segs[|v| + 2..]);
    } else {
      BuiltShape(segs[1..], vars, seen);
      CharShape(segs[0].c, Built(segs[1..], vars, seen, {}), seen);
      PlainSlotsHead(segs);
    }
  }

  lemma HiddenShape(v: string, seen: set<string>, rest: seq<Item>)
    requires WellFormed(rest, seen + {v})
    ensures WellFormed(Hidden(v, seen) + rest, seen)
    ensures GroupsOf(Hidden(v, seen) + rest) + seen == GroupsOf(rest) + (seen + {v})
  {
    HiddenParts(v, seen, rest);
    CharShape('}', rest, seen + {v});
    MarkShape(v, seen, [Char('}')] + rest);
    CharShape('{', [Mark(v, seen)] + ([Char('}')] + rest), seen);
  }

  lemma CharShape(c: char, rest: seq<Item>, seen: set<string>)
    ensures WellFormed([Char(c)] + rest, seen) <==> WellFormed(rest, seen)
    ensures GroupsOf([Char(c)] + rest) == GroupsOf(rest)
  {
    assert ([Char(c)] + rest)[1..] == rest;
  }

  lemma MarkShape(v: string, seen: set<string>, rest: seq<Item>)
    requires WellFormed(rest, seen + {v})
    ensures WellFormed([Mark(v, seen)] + rest, seen)
    ensures GroupsOf([Mark(v, seen)] + rest) + seen == GroupsOf(rest) + (seen + {v})
  {
    assert ([Mark(v, seen)] + rest)[1..] == rest;
    assert v in seen ==> seen + {v} == seen;
  }

  lemma SlotsAfterLits(s: string, rest: seq<Seg>)
    ensures PlainSlots(Lits(s) + rest) == PlainSlots(rest)
  {
    var segs := Lits(s) + rest;
    forall seg: Seg | seg.Slot? ensures seg in segs <==> seg in rest {
      if seg in rest {
        var i :| 0 <= i < |rest| && rest[i] == seg;
        assert segs[|s| + i] == seg;
      }
    }
  }

  /** A captured variable that is no identifier makes the extraction refuse every text. */
  lemma BadNameRefusesAll(rendered: string, body: string, variables: seq<string>, identifier: Identifiers)
    requires Registered(body, variables) && !AllIdentifiers(PlainSlots(Parse(body).value), identifier)
    ensures Extract(rendered, body, variables, identifier) == None
  {
    var segs, vars := Parse(body).value, SetOf(variables);
    RegisteredNames(body, variables);
    PatternBuilt(body, variables);
    BuiltShape(segs, vars, {});
    var v :| v in PlainSlots(segs) && !identifier(v);
    assert v in GroupsOf(Pattern(body, variables));
  }

  lemma OneField(seg: Seg)
    requires IsSeg(seg) && !seg.Lit?
    ensures Registered(RawSeg(seg), [seg.name]) && Parse(RawSeg(seg)) == Some([seg])
    ensures !Disguised([seg], SetOf([seg.name]))
    ensures PlainSlots([seg]) == if seg.Slot? then {seg.name} else {}
  {
    var segs := [seg];
    assert segs[1..] == [] && Raw(segs) == RawSeg(seg) + [] == RawSeg(seg);
    RawParses(segs);
    assert segs[0] in segs && [seg.name][0] in [seg.name];
    assert SlotsOf(segs) == {seg.name} && SetOf([seg.name]) == {seg.name};
  }

  /** A template may have the variable a-b, and its renders are all refused. */
  lemma HyphenRefused(rendered: string, identifier: Identifiers)
    requires !identifier("a-b")
    ensures Registered("{a-b}", ["a-b"]) && Extract(rendered, "{a-b}", ["a-b"], identifier) == None
  {
    assert "a-b"[0] == 'a';
    OneField(Slot("a-b"));
    assert RawSeg(Slot("a-b")) == "{a-b}";
    BadNameRefusesAll(rendered, "{a-b}", ["a-b"], identifier);
  }

  function Braces(s: string): nat {
    if s == [] then 0 else (if s[0] == '{' || s[0] == '}' then 1 else 0) + Braces(s[1..])
  }

  lemma {:induction false} BracesAppend(s: string, t: string)
    ensures Braces(s + t) == Braces(s) + Braces(t)
  {
    if s == [] {
      assert s + t == t;
    } else {
      assert (s + t)[1..] == s[1..] + t;
      BracesAppend(s[1..], t);
    }
  }

  lemma {:induction false} BracesNone(s: string)
    ensures Braces(s) == 0 <==> Braceless(s)
  {
    if s != [] {
      BracesNone(s[1..]);
      assert s == [s[0]] + s[1..];
    }
  }

  /** The braces a pattern spells out. */
  function BraceItems(items: seq<Item>): nat {
    if items == [] then 0 else (if items[0] == Char('{') || items[0] == Char('}') then 1 else 0) + BraceItems(items[1..])
  }

  /** No place of the pattern is filled with a brace. */
  ghost predicate Plain(items: seq<Item>, values: Payload) {
    items != [] ==> (items[0].Char? || Braceless(Value(values, items[0].name))) && Plain(items[1..], values)
  }

  lemma {:induction false} BracesOfFilled(items: seq<Item>, values: Payload)
    ensures Braces(Filled(items, values)) >= BraceItems(items)
    ensures Braces(Filled(items, values)) == BraceItems(items) ==> Plain(items, values)
  {
    if items != [] {
      var first := if items[0].Char? then [items[0].c] else Value(values, items[0].name);
      BracesOfFilled(items[1..], values);
      BracesAppend(first, Filled(items[1..], values));
      BracesNone(first);
    }
  }

  lemma ConsParts(x: Item, rest: seq<Item>, values: Payload)
    ensures BraceItems([x] + rest) == (if x == Char('{') || x == Char('}') then 1 else 0) + BraceItems(rest)
    ensures Plain([x] + rest, values) <==> (x.Char? || Braceless(Value(values, x.name))) && Plain(rest, values)
    ensures Filled([x] + rest, values) == (if x.Char? then [x.c] else Value(values, x.name)) + Filled(rest, values)
  {
    assert ([x] + rest)[1..] == rest;
  }

  lemma HiddenConsParts(v: string, seen: set<string>, rest: seq<Item>, values: Payload)
    ensures BraceItems(Hidden(v, seen) + rest) == 2 + BraceItems(rest)
    ensures Plain(Hidden(v, seen) + rest, values) <==> Braceless(Value(values, v)) && Plain(rest, values)
    ensures Filled(Hidden(v, seen) + rest, values) == ['{'] + (Value(values, v) + (['}'] + Filled(rest, values)))
  {
    HiddenParts(v, seen, rest);
    ConsParts(Char('}'), rest, values);
    ConsParts(Mark(v, seen), [Char('}')] + rest, values);
    ConsParts(Char('{'), [Mark(v, seen)] + ([Char('}')] + rest), values);
  }

  lemma {:induction false} RenderLits(s: string, rest: seq<Seg>, values: Payload, shown: Formatter)
    ensures Render(Lits(s) + rest, values, shown) == s + Render(rest, values, shown)
  {
    if s == [] {
      assert Lits(s) + rest == rest;
    } else {
      RenderLits(s[1..], rest, values, shown);
      LitsCons(s, rest);
      assert (Lits(s) + rest)[1..] == Lits(s[1..]) + rest;
      Reassociate(s, Render(rest, values, shown));
    }
  }

  lemma TokenThen(v: string, t: string)
    ensures Token(v) + t == ['{'] + (v + (['}'] + t))
  {
  }

  /** A disguise renders as the braces and the name it spells. */
  lemma RenderDisguise(segs: seq<Seg>, vars: set<string>, values: Payload, shown: Formatter)
    requires DisguiseAt(segs, vars).Some?
    ensures var v := DisguiseAt(segs, vars).value;
            && |v| + 2 <= |segs|
            && Render(segs, values, shown) == ['{'] + (v + (['}'] + Render(segs[|v| + 2..], values, shown)))
  {
    var v := DisguiseAt(segs, vars).value;
    DisguiseHead(segs, vars);
    RenderLits(Token(v), segs[|v| + 2..], values, shown);
    TokenThen(v, Render(segs[|v| + 2..], values, shown));
  }

  /** The braces among the literals. */
  function LitBraces(segs: seq<Seg>): nat {
    if segs == [] then 0
    else (if segs[0] == Lit('{') || segs[0] == Lit('}') then 1 else 0) + LitBraces(segs[1..])
  }

  lemma {:induction false} LitBracesLits(s: string, rest: seq<Seg>)
    ensures LitBraces(Lits(s) + rest) == Braces(s) + LitBraces(rest)
  {
    if s == [] {
      assert Lits(s) + rest == rest;
    } else {
      LitBracesLits(s[1..], rest);
      LitsCons(s, rest);
      assert ([Lit(s[0])] + (Lits(s[1..]) + rest))[1..] == Lits(s[1..]) + rest;
    }
  }

  function FieldCount(segs: seq<Seg>): nat {
    if segs == [] then 0 else (if segs[0].Formatted? then 1 else 0) + FieldCount(segs[1..])
  }

  ghost predicate AllPlain(segs: seq<Seg>) {
    forall seg :: seg in segs ==> !seg.Formatted?
  }

  lemma {:induction false} FieldsCounted(segs: seq<Seg>)
    ensures FieldCount(segs) == 0 <==> AllPlain(segs)
  {
    if segs != [] {
      FieldsCounted(segs[1..]);
      assert segs == [segs[0]] + segs[1..];
    }
  }

  lemma {:induction false} FieldCountLits(s: string, rest: seq<Seg>)
    ensures FieldCount(Lits(s) + rest) == FieldCount(rest)
  {
    if s == [] {
      assert Lits(s) + rest == rest;
    } else {
      FieldCountLits(s[1..], rest);
      LitsCons(s, rest);
      assert ([Lit(s[0])] + (Lits(s[1..]) + rest))[1..] == Lits(s[1..]) + rest;
    }
  }

  lemma {:induction false} BraceItemsChars(s: string, rest: seq<Item>)
    ensures BraceItems(Chars(s) + rest) == Braces(s) + BraceItems(rest)
  {
    if s == [] {
      assert Chars(s) + rest == rest;
    } else {
      BraceItemsChars(s[1..], rest);
      CharsThen(s, rest);
      ConsParts(Char(s[0]), Chars(s[1..]) + rest, map[]);
    }
  }

  /** The pattern spells out the braces of the literals, and two more for each formatted slot. */
  lemma {:induction false} BracesOfBuilt(segs: seq<Seg>, vars: set<string>, seen: set<string>)
    requires Names(vars) && forall seg :: seg in segs ==> IsSeg(seg)
    ensures BraceItems(Built(segs, vars, seen, {})) == LitBraces(segs) + 2 * FieldCount(segs)
    decreases |segs|
  {
    if segs == [] {
    } else if segs[0].Slot? {
      BracesOfBuilt(segs[1..], vars, seen + {segs[0].name});
      ConsParts(Mark(segs[0].name, seen), Built(segs[1..], vars, seen + {segs[0].name}, {}), map[]);
    } else if segs[0].Formatted? {
      var field := segs[0].name + segs[0].suffix;
      assert IsSeg(segs[0]);
      NameBraceless(segs[0].name);
      BracesOfBuilt(segs[1..], vars, seen);
      BraceItemsChars(Token(field), Built(segs[1..], vars, seen, {}));
      BracesOfToken(field);
    } else if DisguiseAt(segs, vars).Some? {
      var v := DisguiseAt(segs, vars).value;
      DisguiseHead(segs, vars);
      BracesOfBuilt(segs[|v| + 2..], vars, seen + {v});
      HiddenConsParts(v, seen, Built(segs[|v| + 2..], vars, seen + {v}, {}), map[]);
      LitBracesLits(Token(v), segs[|v| + 2..]);
      FieldCountLits(Token(v), segs[|v| + 2..]);
      NameBraceless(v);
      BracesOfToken(v);
    } else {
      BracesOfBuilt(segs[1..], vars, seen);
      ConsParts(Char(segs[0].c), Built(segs[1..], vars, seen, {}), map[]);
    }
  }

  lemma BracesOfToken(v: string)
    requires Braceless(v)
    ensures Braces(Token(v)) == 2
  {
    BracesNone(v);
    BracesAppend(v, ['}']);
    BracesAppend(['{'], v + ['}']);
    assert Token(v) == ['{'] + (v + ['}']);
    assert Braces(['{']) == 1 && Braces(['}']) == 1;
  }

  /** Nothing that is filled in brings a brace. */
  ghost predicate Unbraced(segs: seq<Seg>, values: Payload, shown: Formatter) {
    forall seg :: seg in segs && !seg.Lit? ==> Braceless(Shown(seg, values, shown))
  }

  lemma {:induction false} BracesOfRender(segs: seq<Seg>, values: Payload, shown: Formatter)
    requires Unbraced(segs, values, shown)
    ensures Braces(Render(segs, values, shown)) == LitBraces(segs)
  {
    if segs != [] {
      BracesOfRender(segs[1..], values, shown);
      BracesAppend(Shown(segs[0], values, shown), Render(segs[1..], values, shown));
      BracesNone(Shown(segs[0], values, shown));
    }
  }

  lemma CharAt(a: string, s: string, b: string, t: string)
    requires a + s == b + t && |a| < |b|
    ensures s != [] && s[0] in b
  {
    assert |a + s| == |b + t|;
    assert s[0] == (a + s)[|a|] == (b + t)[|a|] == b[|a|];
  }

  lemma BraceNotInside(a: string, c: char, s: string, b: string, t: string)
    requires Braceless(b) && !Braceless([c]) && a + ([c] + s) == b + t
    ensures |b| <= |a|
  {
    if |a| < |b| {
      CharAt(a, [c] + s, b, t);
    }
  }

  /** The first brace of a text is where it is. */
  lemma FirstBraceUnique(a: string, c: char, s: string, b: string, d: char, t: string)
    requires Braceless(a) && Braceless(b) && !Braceless([c]) && !Braceless([d])
    requires a + ([c] + s) == b + ([d] + t)
    ensures a == b && c == d && s == t
  {
    BraceNotInside(a, c, s, b, [d] + t);
    BraceNotInside(b, d, t, a, [c] + s);
    var x, y := a + ([c] + s), b + ([d] + t);
    assert a == x[..|a|] && b == y[..|b|];
    assert s == x[|a| + 1..] && t == y[|b| + 1..];
    assert c == x[|a|] && d == y[|b|];
  }

  function Blank(name: string, suffix: string): string {
    []
  }

  /** Nothing in the slots, and in the disguises what they spell. */
  ghost predicate Fits(segs: seq<Seg>, vars: set<string>, values: Payload)
    decreases |segs|
  {
    if segs == [] then true
    else if segs[0].Slot? then Value(values, segs[0].name) == [] && Fits(segs[1..], vars, values)
    else if segs[0].Formatted? then Fits(segs[1..], vars, values)
    else
      match DisguiseAt(segs, vars)
      case None => Fits(segs[1..], vars, values)
      case Some(v) =>
        DisguiseHead(segs, vars);
        Value(values, v) == v && Fits(segs[|v| + 2..], vars, values)
  }

  lemma {:induction false} FitMeans(segs: seq<Seg>, vars: set<string>, values: Payload)
    requires Names(vars) && Fits(segs, vars, values)
    ensures forall v :: v in PlainSlots(segs) ==> Value(values, v) == []
    ensures AnyDisguise(segs, vars) ==> exists v :: v in vars && Value(values, v) != []
    decreases |segs|
  {
    if segs == [] {
    } else if DisguiseAt(segs, vars).Some? {
      var v := DisguiseAt(segs, vars).value;
      DisguiseHead(segs, vars);
      FitMeans(segs[|v| + 2..], vars, values);
      SlotsAfterLits(Token(v), segs[|v| + 2..]);
    } else {
      FitMeans(segs[1..], vars, values);
      assert segs == [segs[0]] + segs[1..];
    }
  }

  /** Filled to the render with nothing in its slots, brace by brace, the pattern has nothing in its slots and the
      spelled name in a disguise. The texts since the last brace are a and b. */
  lemma {:induction false} Align(segs: seq<Seg>, vars: set<string>, seen: set<string>, values: Payload,
      a: string, b: string)
    requires Names(vars) && AllPlain(segs) && Plain(Built(segs, vars, seen, {}), values)
    requires Braceless(a) && Braceless(b) && |a| >= |b|
    requires a + Filled(Built(segs, vars, seen, {}), values) == b + Render(segs, map[], Blank)
    ensures |a| == |b| && Fits(segs, vars, values)
    decreases |segs|, 1
  {
    if segs == [] {
      assert a == a + [] == b + [] == b;
    } else if segs[0].Slot? {
      AlignSlot(segs, vars, seen, values, a, b);
    } else if DisguiseAt(segs, vars).Some? {
      AlignHidden(segs, vars, seen, values, a, b);
    } else {
      AlignLiteral(segs, vars, seen, values, a, b);
    }
  }

  lemma {:induction false} AlignHidden(segs: seq<Seg>, vars: set<string>, seen: set<string>, values: Payload,
      a: string, b: string)
    requires Names(vars) && AllPlain(segs) && Plain(Built(segs, vars, seen, {}), values)
    requires segs != [] && segs[0].Lit? && DisguiseAt(segs, vars).Some?
    requires Braceless(a) && Braceless(b)
    requires a + Filled(Built(segs, vars, seen, {}), values) == b + Render(segs, map[], Blank)
    ensures |a| == |b| && Fits(segs, vars, values)
    decreases |segs|, 0
  {
    AlignDisguise(segs, vars, seen, values, a, b);
    var v := DisguiseAt(segs, vars).value;
    Align(segs[|v| + 2..], vars, seen + {v}, values, [], []);
  }

  lemma {:induction false} AlignSlot(segs: seq<Seg>, vars: set<string>, seen: set<string>, values: Payload,
      a: string, b: string)
    requires Names(vars) && AllPlain(segs) && Plain(Built(segs, vars, seen, {}), values)
    requires segs != [] && segs[0].Slot?
    requires Braceless(a) && Braceless(b) && |a| >= |b|
    requires a + Filled(Built(segs, vars, seen, {}), values) == b + Render(segs, map[], Blank)
    ensures |a| == |b| && Fits(segs, vars, values)
    decreases |segs|, 0
  {
    var name := segs[0].name;
    var rest := Built(segs[1..], vars, seen + {name}, {});
    ConsParts(Mark(name, seen), rest, values);
    assert Render(segs, map[], Blank) == Render(segs[1..], map[], Blank);
    Associate(a, Value(values, name), Filled(rest, values));
    Align(segs[1..], vars, seen + {name}, values, a + Value(values, name), b);
  }

  lemma {:induction false} AlignLiteral(segs: seq<Seg>, vars: set<string>, seen: set<string>, values: Payload,
      a: string, b: string)
    requires Names(vars) && AllPlain(segs) && Plain(Built(segs, vars, seen, {}), values)
    requires segs != [] && segs[0].Lit? && DisguiseAt(segs, vars).None?
    requires Braceless(a) && Braceless(b) && |a| >= |b|
    requires a + Filled(Built(segs, vars, seen, {}), values) == b + Render(segs, map[], Blank)
    ensures |a| == |b| && Fits(segs, vars, values)
    decreases |segs|, 0
  {
    var c, rest := segs[0].c, Built(segs[1..], vars, seen, {});
    var x, y := Filled(rest, values), Render(segs[1..], map[], Blank);
    ConsParts(Char(c), rest, values);
    if Braceless([c]) {
      Associate(a, [c], x);
      Associate(b, [c], y);
      Align(segs[1..], vars, seen, values, a + [c], b + [c]);
    } else {
      FirstBraceUnique(a, c, x, b, c, y);
      assert [] + x == x && [] + y == y;
      Align(segs[1..], vars, seen, values, [], []);
    }
  }

  lemma Associate(a: string, b: string, c: string)
    ensures (a + b) + c == a + (b + c)
  {
  }

  lemma AlignDisguise(segs: seq<Seg>, vars: set<string>, seen: set<string>, values: Payload, a: string, b: string)
    requires Names(vars) && Plain(Built(segs, vars, seen, {}), values)
    requires segs != [] && DisguiseAt(segs, vars).Some?
    requires Braceless(a) && Braceless(b)
    requires a + Filled(Built(segs, vars, seen, {}), values) == b + Render(segs, map[], Blank)
    ensures var v := DisguiseAt(segs, vars).value;
            && a == b && Value(values, v) == v && |v| + 2 <= |segs|
            && var rest := Built(segs[|v| + 2..], vars, seen + {v}, {});
               Plain(rest, values) && [] + Filled(rest, values) == [] + Render(segs[|v| + 2..], map[], Blank)
  {
    var v := DisguiseAt(segs, vars).value;
    DisguiseHead(segs, vars);
    var rest := Built(segs[|v| + 2..], vars, seen + {v}, {});
    var x, y := Filled(rest, values), Render(segs[|v| + 2..], map[], Blank);
    HiddenConsParts(v, seen, rest, values);
    RenderDisguise(segs, vars, map[], Blank);
    NameBraceless(v);
    FirstBraceUnique(a, '{', Value(values, v) + (['}'] + x), b, '{', v + (['}'] + y));
    FirstBraceUnique(Value(values, v), '}', x, v, '}', y);
  }

  /** A text that the pattern can be filled to has its braces, and no more only if nothing filled in brings one. */
  lemma RefusedByBraces(body: string, variables: seq<string>, identifier: Identifiers, text: string)
    requires Registered(body, variables)
    requires Braces(text) < LitBraces(Parse(body).value) + 2 * FieldCount(Parse(body).value)
    ensures Extract(text, body, variables, identifier) == None
  {
    var segs, vars, none: Payload := Parse(body).value, SetOf(variables), map[];
    RegisteredNames(body, variables);
    PatternBuilt(body, variables);
    BuiltShape(segs, vars, {});
    BracesOfBuilt(segs, vars, {});
    assert none.Keys == {};
    MatchFills(Pattern(body, variables), text, none);
    if Match(Pattern(body, variables), text, none).Some? {
      BracesOfFilled(Pattern(body, variables), Match(Pattern(body, variables), text, none).value);
    }
  }

  /** A formatted slot makes the extraction refuse every render into which no value brings a brace. */
  lemma FormatRefusesRenders(body: string, variables: seq<string>, identifier: Identifiers, values: Payload,
      shown: Formatter)
    requires Registered(body, variables) && !AllPlain(Parse(body).value) && Unbraced(Parse(body).value, values, shown)
    ensures Extract(Render(Parse(body).value, values, shown), body, variables, identifier) == None
  {
    FieldsCounted(Parse(body).value);
    BracesOfRender(Parse(body).value, values, shown);
    RefusedByBraces(body, variables, identifier, Render(Parse(body).value, values, shown));
  }

  lemma OneFormatRefused(seg: Seg, text: string, identifier: Identifiers)
    requires IsSeg(seg) && seg.Formatted? && Braceless(text)
    ensures Registered(RawSeg(seg), [seg.name]) && Extract(text, RawSeg(seg), [seg.name], identifier) == None
  {
    OneField(seg);
    assert [seg][1..] == [] && FieldCount([seg]) == 1;
    BracesNone(text);
    RefusedByBraces(RawSeg(seg), [seg.name], identifier, text);
  }

  /** For instance, 1.50 as a render of {n:.2f}. */
  lemma FixedPointRefused(identifier: Identifiers)
    ensures var body := RawSeg(Formatted("n", ":.2f"));
            body == "{n:.2f}" && Registered(body, ["n"]) && Extract("1.50", body, ["n"], identifier) == None
  {
    assert "n"[0] == 'n';
    assert Token("n" + ":.2f") == "{n:.2f}";
    OneFormatRefused(Formatted("n", ":.2f"), "1.50", identifier);
  }

  /** A formatted slot is matched by its own text, and its variable is then missing from what is recovered. */
  lemma FormattedSlotMissing(seg: Seg, identifier: Identifiers)
    requires IsSeg(seg) && seg.Formatted?
    ensures Registered(RawSeg(seg), [seg.name])
         && Extract(RawSeg(seg), RawSeg(seg), [seg.name], identifier) == Some(map[])
  {
    var none: Payload := map[];
    OneField(seg);
    OneShown(seg);
    ExtractionInvertsRendering(RawSeg(seg), RawSeg(seg), [seg.name], identifier);
    assert Extract(RawSeg(seg), RawSeg(seg), [seg.name], identifier).value == none;
  }

  lemma OneShown(seg: Seg)
    requires seg.Formatted?
    ensures Render([seg], map[], Unformatted) == RawSeg(seg)
  {
    assert [seg][1..] == [];
    assert RawSeg(seg) + [] == RawSeg(seg);
  }

  /** A doubled-brace literal that spells a variable makes the extraction refuse the render with nothing in its slots. */
  lemma DisguiseRefusesRender(body: string, variables: seq<string>, identifier: Identifiers)
    requires Registered(body, variables) && Disguised(Parse(body).value, SetOf(variables))
    ensures Extract(Render(Parse(body).value, map[], Blank), body, variables, identifier) == None
  {
    var segs := Parse(body).value;
    if AllPlain(segs) {
      PlainDisguiseRefuses(body, variables, identifier);
    } else {
      FormatRefusesRenders(body, variables, identifier, map[], Blank);
    }
  }

  lemma PlainDisguiseRefuses(body: string, variables: seq<string>, identifier: Identifiers)
    requires Registered(body, variables) && Disguised(Parse(body).value, SetOf(variables)) && AllPlain(Parse(body).value)
    ensures Extract(Render(Parse(body).value, map[], Blank), body, variables, identifier) == None
  {
    var segs, vars, none: Payload := Parse(body).value, SetOf(variables), map[];
    var items, text := Pattern(body, variables), Render(segs, none, Blank);
    RegisteredNames(body, variables);
    PatternBuilt(body, variables);
    BuiltShape(segs, vars, {});
    assert none.Keys == {};
    MatchFills(items, text, none);
    if Match(items, text, none).Some? {
      EmptyRenderFits(segs, vars, Match(items, text, none).value);
    }
  }

  /** Filling the pattern to the render with empty values takes body and variables without a disguise. */
  lemma EmptyRenderFits(segs: seq<Seg>, vars: set<string>, values: Payload)
    requires Names(vars) && AllPlain(segs) && SlotsOf(segs) == vars
    requires Filled(Built(segs, vars, {}, {}), values) == Render(segs, map[], Blank)
    ensures !Disguised(segs, vars)
  {
    var text := Render(segs, map[], Blank);
    BracesOfFilled(Built(segs, vars, {}, {}), values);
    BracesOfBuilt(segs, vars, {});
    FieldsCounted(segs);
    BracesOfRender(segs, map[], Blank);
    assert [] + text == text;
    Align(segs, vars, {}, values, [], []);
    FitMeans(segs, vars, values);
    PlainOnly(segs);
    DisguisedIff(segs, vars);
  }

  lemma PlainOnly(segs: seq<Seg>)
    requires AllPlain(segs)
    ensures PlainSlots(segs) == SlotsOf(segs)
  {
  }

  /** A registered template gets every one of its renders accepted exactly when its variables are identifiers, no
      doubled-brace literal spells one of them, and no slot is formatted. */
  lemma AcceptsEveryRenderIff(body: string, variables: seq<string>, identifier: Identifiers)
    requires Registered(body, variables)
    ensures (forall values: Payload, shown: Formatter :: values.Keys == SetOf(variables)
               ==> Extract(Render(Parse(body).value, values, shown), body, variables, identifier).Some?)
       <==> && AllIdentifiers(SetOf(variables), identifier) && !Disguised(Parse(body).value, SetOf(variables))
            && AllPlain(Parse(body).value)
  {
    var segs, vars := Parse(body).value, SetOf(variables);
    var fit := AllIdentifiers(vars, identifier) && !Disguised(segs, vars) && AllPlain(segs);
    if fit {
      PlainOnly(segs);
      forall values: Payload, shown: Formatter
        ensures Extract(Render(segs, values, shown), body, variables, identifier).Some?
      {
        PlainRender(segs, values, shown);
        AcceptsRender(body, variables, identifier, values);
      }
    } else {
      var values := RefusesSome(body, variables, identifier);
    }
  }

  /** The render with nothing in its slots is refused where any is. */
  lemma RefusesSome(body: string, variables: seq<string>, identifier: Identifiers) returns (values: Payload)
    requires Registered(body, variables)
    requires !AllIdentifiers(SetOf(variables), identifier) || Disguised(Parse(body).value, SetOf(variables))
             || !AllPlain(Parse(body).value)
    ensures values.Keys == SetOf(variables)
    ensures Extract(Render(Parse(body).value, values, Blank), body, variables, identifier) == None
  {
    var segs, none: Payload := Parse(body).value, map[];
    values := map v | v in SetOf(variables) :: [];
    RenderEmpty(segs, values, Blank);
    if !AllPlain(segs) {
      FormatRefusesRenders(body, variables, identifier, none, Blank);
    } else if Disguised(segs, SetOf(variables)) {
      DisguiseRefusesRender(body, variables, identifier);
    } else {
      PlainOnly(segs);
      BadNameRefusesAll(Render(segs, values, Blank), body, variables, identifier);
    }
  }

  lemma {:induction false} PlainRender(segs: seq<Seg>, values: Payload, shown: Formatter)
    requires AllPlain(segs)
    ensures Render(segs, values, shown) == Render(segs, values, Unformatted)
  {
    if segs != [] {
      PlainRender(segs[1..], values, shown);
      assert segs[0] in segs;
    }
  }

  lemma AcceptsRender(body: string, variables: seq<string>, identifier: Identifiers, values: Payload)
    requires Recoverable(body, variables, identifier)
    ensures Extract(Render(Parse(body).value, values, Unformatted), body, variables, identifier).Some?
  {
    var rendered := Render(Parse(body).value, values, Unformatted);
    ExtractionInvertsRendering(rendered, body, variables, identifier);
    assert exists other: Payload :: Render(Parse(body).value, other, Unformatted) == rendered;
  }

  lemma {:induction false} RenderEmpty(segs: seq<Seg>, values: Payload, shown: Formatter)
    requires forall v :: v in values ==> values[v] == []
    ensures Render(segs, values, shown) == Render(segs, map[], shown)
  {
    if segs != [] {
      RenderEmpty(segs[1..], values, shown);
    }
  }

  // ---- Values that no shorter reading can replace ----

  /** The literal characters up to the next group or reference, or to the end, match the start of the text. */
  predicate Leads(items: seq<Item>, text: string) {
    if items == [] then text == []
    else if items[0].Char? then text != [] && text[0] == items[0].c && Leads(items[1..], text[1..])
    else true
  }

  /** No value lets the literal after its slot match early. */
  ghost predicate Guarded(items: seq<Item>, values: Payload) {
    items != [] ==>
      && Guarded(items[1..], values)
      && (items[0].Group? ==>
            var x := Value(values, items[0].name);
            forall k :: 0 <= k < |x| ==> !Leads(items[1..], x[k..] + Filled(items[1..], values)))
  }

  lemma {:induction false} MatchLeads(items: seq<Item>, text: string, bound: Payload)
    requires Match(items, text, bound).Some?
    ensures Leads(items, text)
  {
    if items != [] && items[0].Char? {
      MatchLeads(items[1..], text[1..], bound);
    }
  }

  lemma {:induction false} GuardedMatch(items: seq<Item>, bound: Payload, values: Payload)
    requires WellFormed(items, bound.Keys) && Extends(values, bound) && Guarded(items, values)
    requires values.Keys == bound.Keys + GroupsOf(items)
    ensures Match(items, Filled(items, values), bound) == Some(values)
    decreases |items|
  {
    var text := Filled(items, values);
    if items == [] {
      assert bound == values;
    } else {
      match items[0]
      case Char(c) =>
        assert text[1..] == Filled(items[1..], values);
        GuardedMatch(items[1..], bound, values);
      case Backref(v) =>
        assert text[|bound[v]|..] == Filled(items[1..], values);
        GuardedMatch(items[1..], bound, values);
      case Group(v) =>
        var next := bound[v := values[v]];
        assert next.Keys == bound.Keys + {v};
        GuardedMatch(items[1..], next, values);
        GuardedGroup(items[1..], bound, v, 0, values);
    }
  }

  lemma {:induction false} GuardedGroup(rest: seq<Item>, bound: Payload, v: string, k: nat, values: Payload)
    requires v in values && k <= |values[v]|
    requires forall i :: 0 <= i < |values[v]| ==> !Leads(rest, values[v][i..] + Filled(rest, values))
    requires Match(rest, Filled(rest, values), bound[v := values[v]]) == Some(values)
    ensures MatchGroup(rest, values[v] + Filled(rest, values), bound, v, k) == Some(values)
    decreases |values[v]| - k
  {
    var text := values[v] + Filled(rest, values);
    if k < |values[v]| {
      assert text[k..] == values[v][k..] + Filled(rest, values);
      if Match(rest, text[k..], bound[v := text[..k]]).Some? {
        MatchLeads(rest, text[k..], bound[v := text[..k]]);
      }
      GuardedGroup(rest, bound, v, k + 1, values);
    } else {
      assert text[..k] == values[v] && text[k..] == Filled(rest, values);
    }
  }

  /** When no value lets the following literal match early, a render gives back the payload it was made with. */
  lemma GuardedPayloadRecovered(body: string, variables: seq<string>, identifier: Identifiers, values: Payload)
    requires Recoverable(body, variables, identifier) && values.Keys == PlainSlots(Parse(body).value)
    requires Guarded(Pattern(body, variables), values)
    ensures Extract(Render(Parse(body).value, values, Unformatted), body, variables, identifier) == Some(values)
  {
    TemplateShape(body, variables, identifier);
    var none: Payload := map[];
    assert none.Keys == {};
    GuardedMatch(Pattern(body, variables), none, values);
  }

  // ---- The loop over the variables ----

  method ExtractVariables(rendered: string, body: string, variables: seq<string>, identifier: Identifiers)
      returns (payload: Option<Payload>)
    ensures payload == Extract(rendered, body, variables, identifier)
  {
    var pattern := Chars(body);
    for i := 0 to |variables|
      invariant pattern == Passes(Chars(body), variables[..i])
    {
      assert variables[..i + 1][..i] == variables[..i];
      var token := Chars(Token(variables[i]));
      CaptureFirst(pattern, variables[i]);
      var parts := Partition(pattern, token);
      if parts.None? {
        continue;
      }
      var (first, rest) := parts.value;
      pattern := first + [Group(variables[i])] + ReplaceAll(rest, token, Backref(variables[i]));
    }
    assert variables[..|variables|] == variables;
    pattern := Undouble(Undouble(pattern, '{'), '}');
    payload := if Compiles(pattern, identifier) then Match(pattern, rendered, map[]) else None;
  }
}
