/** A template body's meaning, and when its pattern says the same. */
module TemplateMeaning {
  import opened Wrappers
  import opened TemplatePattern

  /** What a body is made of once its doubled braces are undone. The suffix of a formatted slot is its conversion and its
      format specification, with the marks that introduce them. */
  datatype Seg = Lit(c: char) | Slot(name: string) | Formatted(name: string, suffix: string)

  function RawSeg(seg: Seg): string {
    match seg
    case Lit(c) => if c == '{' || c == '}' then [c, c] else [c]
    case Slot(name) => Token(name)
    case Formatted(name, suffix) => Token(name + suffix)
  }

  function Raw(segs: seq<Seg>): string {
    if segs == [] then [] else RawSeg(segs[0]) + Raw(segs[1..])
  }

  predicate Braceless(s: string) {
    '{' !in s && '}' !in s
  }

  /** A conversion, a specification, or both. Nested fields are left out. */
  predicate IsSuffix(s: string) {
    && s != [] && Braceless(s)
    && (s[0] == ':' || (s[0] == '!' && |s| >= 2 && (|s| == 2 || s[2] == ':')))
  }

  predicate IsSeg(seg: Seg) {
    match seg
    case Lit(_) => true
    case Slot(name) => IsName(name)
    case Formatted(name, suffix) => IsName(name) && IsSuffix(suffix)
  }

  ghost predicate WellNamed(segs: seq<Seg>, vars: set<string>) {
    forall seg :: seg in segs ==> IsSeg(seg) && (seg.Slot? ==> seg.name in vars)
  }

  /** The length of a field's name: it ends before a conversion or a specification. */
  function NameLength(field: string): (k: nat)
    ensures k <= |field|
  {
    if field == [] || field[0] == '!' || field[0] == ':' then 0 else 1 + NameLength(field[1..])
  }

  function FieldOf(field: string): (r: Option<Seg>)
    ensures r.Some? ==> IsSeg(r.value) && RawSeg(r.value) == Token(field)
  {
    var name, suffix := field[..NameLength(field)], field[NameLength(field)..];
    assert name + suffix == field && name + [] == name;
    if !IsName(name) then None
    else if suffix == [] then Some(Slot(name))
    else if IsSuffix(suffix) then Some(Formatted(name, suffix))
    else None
  }

  /** Python's str.format syntax without nested fields and lookups; positional slots and stray braces are errors. */
  function Parse(body: string): Option<seq<Seg>>
    decreases |body|
  {
    if body == [] then Some([])
    else if |body| >= 2 && body[0] == body[1] && (body[0] == '{' || body[0] == '}') then Prepend(Lit(body[0]), Parse(body[2..]))
    else if body[0] == '}' then None
    else if body[0] != '{' then Prepend(Lit(body[0]), Parse(body[1..]))
    else
      var field := BeforeBrace(body[1..]);
      if Token(field) <= body && FieldOf(field).Some?
      then Prepend(FieldOf(field).value, Parse(body[|field| + 2..]))
      else None
  }

  function Prepend(seg: Seg, rest: Option<seq<Seg>>): Option<seq<Seg>> {
    if rest.Some? then Some([seg] + rest.value) else None
  }

  lemma {:induction false} ParseReadsRaw(body: string)
    ensures Parse(body).Some? ==> Raw(Parse(body).value) == body
    ensures Parse(body).Some? ==> forall seg :: seg in Parse(body).value ==> IsSeg(seg)
    decreases |body|
  {
    if body == [] {
    } else if |body| >= 2 && body[0] == body[1] && (body[0] == '{' || body[0] == '}') {
      ParseReadsRaw(body[2..]);
      assert body == [body[0], body[0]] + body[2..];
    } else if body[0] == '}' {
    } else if body[0] != '{' {
      ParseReadsRaw(body[1..]);
      assert body == [body[0]] + body[1..];
    } else {
      var field := BeforeBrace(body[1..]);
      if Token(field) <= body && FieldOf(field).Some? {
        ParseReadsRaw(body[|field| + 2..]);
        assert body == Token(field) + body[|field| + 2..];
      }
    }
  }

  /** Parsing inverts the doubling of braces. */
  lemma {:induction false} RawParses(segs: seq<Seg>)
    requires forall seg :: seg in segs ==> IsSeg(seg)
    ensures Parse(Raw(segs)) == Some(segs)
  {
    if segs != [] {
      var rest := Raw(segs[1..]);
      RawParses(segs[1..]);
      assert segs == [segs[0]] + segs[1..] && IsSeg(segs[0]);
      match segs[0]
      case Lit(c) => ParseLit(c, rest);
      case Slot(name) =>
        assert name + [] == name;
        ParseField(name, [], rest);
      case Formatted(name, suffix) => ParseField(name, suffix, rest);
    }
  }

  lemma ParseLit(c: char, rest: string)
    ensures Parse(RawSeg(Lit(c)) + rest) == Prepend(Lit(c), Parse(rest))
  {
    assert (RawSeg(Lit(c)) + rest)[|RawSeg(Lit(c))|..] == rest;
  }

  lemma {:induction false} NameEnds(name: string, suffix: string)
    requires '!' !in name && ':' !in name && (suffix == [] || suffix[0] == '!' || suffix[0] == ':')
    ensures NameLength(name + suffix) == |name|
  {
    if name == [] {
      assert name + suffix == suffix;
    } else {
      assert (name + suffix)[1..] == name[1..] + suffix;
      NameEnds(name[1..], suffix);
    }
  }

  lemma FieldSplits(name: string, suffix: string)
    requires IsName(name) && (suffix == [] || IsSuffix(suffix))
    ensures FieldOf(name + suffix) == Some(if suffix == [] then Slot(name) else Formatted(name, suffix))
  {
    NameEnds(name, suffix);
    var field := name + suffix;
    assert field[..|name|] == name && field[|name|..] == suffix;
  }

  lemma ParseField(name: string, suffix: string, rest: string)
    requires IsName(name) && (suffix == [] || IsSuffix(suffix))
    ensures Parse(Token(name + suffix) + rest)
         == Prepend(if suffix == [] then Slot(name) else Formatted(name, suffix), Parse(rest))
  {
    var field := name + suffix;
    var body := Token(field) + rest;
    assert body[1..] == field + ['}'] + rest && body[|field| + 2..] == rest;
    BeforeBraceOf(field, rest);
    FieldSplits(name, suffix);
    assert field[0] != '{';
  }

  /** The variables of a body are exactly its slots, formatted or not, as registration demands. */
  function SlotsOf(segs: seq<Seg>): set<string> {
    set seg | seg in segs && !seg.Lit? :: seg.name
  }

  function PlainSlots(segs: seq<Seg>): set<string> {
    set seg | seg in segs && seg.Slot? :: seg.name
  }

  /** What a formatted slot shows, by its name and suffix: whatever the value's own formatting gives. */
  type Formatter = (string, string) -> string

  /** A formatted slot that shows itself. */
  function Unformatted(name: string, suffix: string): string {
    Token(name + suffix)
  }

  function Value(values: map<string, string>, name: string): string {
    if name in values then values[name] else []
  }

  function Shown(seg: Seg, values: map<string, string>, shown: Formatter): string {
    match seg
    case Lit(c) => [c]
    case Slot(name) => Value(values, name)
    case Formatted(name, suffix) => shown(name, suffix)
  }

  function Render(segs: seq<Seg>, values: map<string, string>, shown: Formatter): string {
    if segs == [] then [] else Shown(segs[0], values, shown) + Render(segs[1..], values, shown)
  }

  /** The pattern the segments call for. A formatted slot is left as it stands, since no pass looks for it. */
  function PatternOf(segs: seq<Seg>, seen: set<string>): seq<Item> {
    if segs == [] then []
    else
      match segs[0]
      case Lit(c) => [Char(c)] + PatternOf(segs[1..], seen)
      case Slot(name) => [Mark(name, seen)] + PatternOf(segs[1..], seen + {name})
      case Formatted(name, suffix) => Chars(Token(name + suffix)) + PatternOf(segs[1..], seen)
  }

  // ---- Disguised slots ----

  function Lits(s: string): (segs: seq<Seg>)
    ensures |segs| == |s| && forall i :: 0 <= i < |s| ==> segs[i] == Lit(s[i])
  {
    seq(|s|, i requires 0 <= i < |s| => Lit(s[i]))
  }

  /** Doubled braces and the literals between them spell the token of a variable. */
  ghost predicate Disguised(segs: seq<Seg>, vars: set<string>) {
    exists i, v :: 0 <= i <= |segs| && v in vars && Lits(Token(v)) <= segs[i..]
  }

  ghost function DisguiseAt(segs: seq<Seg>, vars: set<string>): (r: Option<string>)
    ensures r.Some? ==> r.value in vars && Lits(Token(r.value)) <= segs
    ensures r.None? ==> forall v :: v in vars ==> !(Lits(Token(v)) <= segs)
  {
    if v :| v in vars && Lits(Token(v)) <= segs then Some(v) else None
  }

  ghost predicate AnyDisguise(segs: seq<Seg>, vars: set<string>) {
    segs != [] && (DisguiseAt(segs, vars).Some? || AnyDisguise(segs[1..], vars))
  }

  /** Looking at every place in turn finds a disguise exactly when there is one. */
  lemma {:induction false} DisguisedIff(segs: seq<Seg>, vars: set<string>)
    ensures Disguised(segs, vars) <==> AnyDisguise(segs, vars)
  {
    if segs != [] {
      DisguisedIff(segs[1..], vars);
      if Disguised(segs, vars) {
        var i, v :| 0 <= i <= |segs| && v in vars && Lits(Token(v)) <= segs[i..];
        if i == 0 {
          assert segs[0..] == segs;
        } else {
          assert segs[i..] == segs[1..][i - 1..];
        }
      }
      if DisguiseAt(segs, vars).Some? {
        assert segs[0..] == segs;
      } else if Disguised(segs[1..], vars) {
        var i, v :| 0 <= i <= |segs[1..]| && v in vars && Lits(Token(v)) <= segs[1..][i..];
        assert segs[i + 1..] == segs[1..][i..];
      }
    }
  }

  lemma DisguiseHead(segs: seq<Seg>, vars: set<string>)
    requires DisguiseAt(segs, vars).Some?
    ensures var v := DisguiseAt(segs, vars).value;
            && |v| + 2 <= |segs| && segs[0] == Lit('{') && segs[|v| + 1] == Lit('}')
            && segs == Lits(Token(v)) + segs[|v| + 2..] && segs[1..] == Lits(v) + ([Lit('}')] + segs[|v| + 2..])
  {
    var v := DisguiseAt(segs, vars).value;
    assert Token(v)[0] == '{' && Token(v)[|v| + 1] == '}';
    assert segs[0] == Lits(Token(v))[0] && segs[|v| + 1] == Lits(Token(v))[|v| + 1];
  }

  lemma Cons(seg: Seg, rest: seq<Seg>)
    ensures Raw([seg] + rest) == RawSeg(seg) + Raw(rest)
  {
    assert ([seg] + rest)[1..] == rest;
  }

  lemma {:induction false} LitsRaw(s: string, rest: seq<Seg>)
    requires Braceless(s)
    ensures Raw(Lits(s) + rest) == s + Raw(rest)
  {
    if s == [] {
      assert Lits(s) + rest == rest;
    } else {
      assert s[0] in s && Braceless(s[1..]);
      LitsRaw(s[1..], rest);
      LitsCons(s, rest);
      Cons(Lit(s[0]), Lits(s[1..]) + rest);
      Reassociate(s, Raw(rest));
    }
  }

  lemma LitsCons(s: string, rest: seq<Seg>)
    requires s != []
    ensures Lits(s) + rest == [Lit(s[0])] + (Lits(s[1..]) + rest)
  {
  }

  lemma Reassociate(s: string, t: string)
    requires s != []
    ensures [s[0]] + (s[1..] + t) == s + t
  {
  }

  /** A text that closes a name in the raw segments was written in literals. */
  lemma {:induction false} RawSpells(segs: seq<Seg>, name: string)
    requires Braceless(name) && name + ['}'] <= Raw(segs)
    ensures Lits(name + ['}']) <= segs
  {
    assert segs != [];
    var raw := RawSeg(segs[0]) + Raw(segs[1..]);
    assert raw[0] == (name + ['}'])[0];
    if name != [] {
      assert name[0] in name;
      assert segs[0] == Lit(name[0]);
      assert (name + ['}'])[1..] == name[1..] + ['}'];
      PrefixTail(name[0], name[1..] + ['}'], Raw(segs[1..]));
      assert name + ['}'] == [name[0]] + (name[1..] + ['}']);
      RawSpells(segs[1..], name[1..]);
    }
  }

  lemma PrefixTail(c: char, s: string, t: string)
    ensures [c] + s <= [c] + t <==> s <= t
  {
    if [c] + s <= [c] + t {
      assert ([c] + s)[1..] == s && ([c] + t)[1..] == t;
    }
  }

  lemma NameBraceless(v: string)
    requires IsName(v)
    ensures Braceless(v)
  {
  }

  /** What follows the first of two opening braces, when they disguise a slot. */
  lemma DisguiseBody(segs: seq<Seg>, vars: set<string>)
    requires Names(vars) && DisguiseAt(segs, vars).Some?
    ensures var v := DisguiseAt(segs, vars).value;
            && |v| + 2 <= |segs|
            && ['{'] + Raw(segs[1..]) == Token(v) + (['}'] + Raw(segs[|v| + 2..]))
  {
    var v := DisguiseAt(segs, vars).value;
    DisguiseHead(segs, vars);
    NameBraceless(v);
    LitsRaw(v, [Lit('}')] + segs[|v| + 2..]);
    Cons(Lit('}'), segs[|v| + 2..]);
    Regroup(v, Raw(segs[|v| + 2..]));
  }

  lemma Regroup(v: string, t: string)
    ensures ['{'] + (v + (['}', '}'] + t)) == Token(v) + (['}'] + t)
  {
  }

  lemma TokenIsDisguise(segs: seq<Seg>, v: string)
    requires IsName(v) && segs != [] && segs[0] == Lit('{') && Token(v) <= ['{'] + Raw(segs[1..])
    ensures Lits(Token(v)) <= segs
  {
    NameBraceless(v);
    TokenTail(v, Raw(segs[1..]));
    RawSpells(segs[1..], v);
    LitsTail(segs, v);
  }

  lemma TokenTail(v: string, t: string)
    ensures Token(v) <= ['{'] + t <==> v + ['}'] <= t
  {
    assert Token(v) == ['{'] + (v + ['}']);
    PrefixTail('{', v + ['}'], t);
  }

  lemma LitsTail(segs: seq<Seg>, v: string)
    requires segs != [] && segs[0] == Lit('{') && Lits(v + ['}']) <= segs[1..]
    ensures Lits(Token(v)) <= segs
  {
    assert Lits(Token(v)) == [segs[0]] + Lits(v + ['}']) && segs == [segs[0]] + segs[1..];
  }

  /** The second of two opening braces starts a token exactly when the literals there disguise a slot. */
  lemma SecondBrace(segs: seq<Seg>, vars: set<string>)
    requires Names(vars) && segs != [] && segs[0] == Lit('{')
    ensures NameAt(['{'] + Raw(segs[1..]), vars) == DisguiseAt(segs, vars)
  {
    var body := ['{'] + Raw(segs[1..]);
    if DisguiseAt(segs, vars).Some? {
      DisguiseBody(segs, vars);
      NameAtToken(body, vars, DisguiseAt(segs, vars).value);
    } else if NameAt(body, vars).Some? {
      TokenIsDisguise(segs, NameAt(body, vars).value);
    }
  }

  // ---- What the passes make of the segments ----

  const BRACES: set<char> := {'{', '}'}

  function Literal(c: char, cs: set<char>): seq<Item> {
    if c in cs then [Char(c), Char(c)] else [Char(c)]
  }

  /** The pattern the passes build, with the literal characters in cs still doubled. Slots are marked, disguised ones
      between single braces. */
  ghost function Built(segs: seq<Seg>, vars: set<string>, seen: set<string>, cs: set<char>): seq<Item>
    decreases |segs|
  {
    if segs == [] then []
    else if segs[0].Slot? then
      [Mark(segs[0].name, seen)] + Built(segs[1..], vars, seen + {segs[0].name}, cs)
    else if segs[0].Formatted? then
      Chars(Token(segs[0].name + segs[0].suffix)) + Built(segs[1..], vars, seen, cs)
    else
      match DisguiseAt(segs, vars)
      case None => Literal(segs[0].c, cs) + Built(segs[1..], vars, seen, cs)
      case Some(v) =>
        DisguiseHead(segs, vars);
        Hidden(v, seen) + Built(segs[|v| + 2..], vars, seen + {v}, cs)
  }

  function Hidden(v: string, seen: set<string>): seq<Item> {
    [Char('{'), Mark(v, seen), Char('}')]
  }

  lemma ScanSlot(segs: seq<Seg>, vars: set<string>, seen: set<string>)
    requires Names(vars) && segs != [] && segs[0].Slot? && segs[0].name in vars
    ensures Scan(Raw(segs), vars, seen)
         == [Mark(segs[0].name, seen)] + Scan(Raw(segs[1..]), vars, seen + {segs[0].name})
  {
    var v, body := segs[0].name, Raw(segs);
    assert body == Token(v) + Raw(segs[1..]);
    NameAtToken(body, vars, v);
    assert body[|v| + 2..] == Raw(segs[1..]);
  }

  lemma ScanLit(segs: seq<Seg>, vars: set<string>, seen: set<string>)
    requires segs != [] && segs[0].Lit? && segs[0].c != '{'
    ensures Scan(Raw(segs), vars, seen) == Literal(segs[0].c, BRACES) + Scan(Raw(segs[1..]), vars, seen)
  {
    ScanCopies(RawSeg(segs[0]), Raw(segs[1..]), vars, seen);
    assert Chars(RawSeg(segs[0])) == Literal(segs[0].c, BRACES);
  }

  lemma FirstBrace(text: string, vars: set<string>, seen: set<string>)
    requires Names(vars)
    ensures Scan(['{', '{'] + text, vars, seen) == [Char('{')] + Scan(['{'] + text, vars, seen)
  {
    var body := ['{', '{'] + text;
    assert body[1..] == ['{'] + text && body[1] == '{';
    assert !IsName([]);
  }

  lemma ScanBraces(text: string, vars: set<string>, seen: set<string>)
    requires Names(vars) && NameAt(['{'] + text, vars) == None
    ensures Scan(['{', '{'] + text, vars, seen) == [Char('{'), Char('{')] + Scan(text, vars, seen)
  {
    FirstBrace(text, vars, seen);
    CopyOne('{', text, vars, seen);
  }

  lemma CopyOne(c: char, text: string, vars: set<string>, seen: set<string>)
    requires NameAt([c] + text, vars) == None
    ensures Scan([c] + text, vars, seen) == [Char(c)] + Scan(text, vars, seen)
  {
    assert ([c] + text)[1..] == text;
  }

  lemma ScanName(v: string, rest: string, vars: set<string>, seen: set<string>)
    requires Names(vars) && v in vars
    ensures Scan(Token(v) + rest, vars, seen) == [Mark(v, seen)] + Scan(rest, vars, seen + {v})
  {
    NameAtToken(Token(v) + rest, vars, v);
    assert (Token(v) + rest)[|v| + 2..] == rest;
  }

  lemma ScanHidden(v: string, text: string, vars: set<string>, seen: set<string>)
    requires Names(vars) && v in vars
    ensures Scan(['{'] + (Token(v) + (['}'] + text)), vars, seen) == Hidden(v, seen) + Scan(text, vars, seen + {v})
  {
    var rest := ['}'] + text;
    ScanName(v, rest, vars, seen);
    CopyOne('}', text, vars, seen + {v});
    OpenBrace(Token(v) + rest, vars, seen);
    HiddenParts(v, seen, Scan(text, vars, seen + {v}));
  }

  lemma OpenBrace(body: string, vars: set<string>, seen: set<string>)
    requires Names(vars) && body != [] && body[0] == '{'
    ensures Scan(['{'] + body, vars, seen) == [Char('{')] + Scan(body, vars, seen)
  {
    FirstBrace(body[1..], vars, seen);
    assert ['{'] + body[1..] == body && ['{', '{'] + body[1..] == ['{'] + body;
  }

  lemma HiddenParts(v: string, seen: set<string>, items: seq<Item>)
    ensures Hidden(v, seen) + items == [Char('{')] + ([Mark(v, seen)] + ([Char('}')] + items))
  {
  }

  lemma FieldIsNoName(name: string, suffix: string, vars: set<string>)
    requires Names(vars) && IsSuffix(suffix)
    ensures name + suffix !in vars
  {
    assert (name + suffix)[|name|] == suffix[0];
    assert suffix[0] == '!' || suffix[0] == ':';
    assert !IsName(name + suffix);
  }

  lemma ScanField(name: string, suffix: string, rest: string, vars: set<string>, seen: set<string>)
    requires Names(vars) && IsName(name) && IsSuffix(suffix)
    ensures Scan(Token(name + suffix) + rest, vars, seen) == Chars(Token(name + suffix)) + Scan(rest, vars, seen)
  {
    var field := name + suffix;
    var tail := field + ['}'];
    assert Token(field) + rest == ['{'] + (tail + rest) && Token(field) == ['{'] + tail;
    assert (['{'] + (tail + rest))[1..] == field + ['}'] + rest;
    BeforeBraceOf(field, rest);
    FieldIsNoName(name, suffix, vars);
    CopyOne('{', tail + rest, vars, seen);
    ScanCopies(tail, rest, vars, seen);
    CharsCons('{', tail);
  }

  /** The passes see every slot, and every disguised one, but no formatted one. */
  lemma {:induction false} ScanOfRaw(segs: seq<Seg>, vars: set<string>, seen: set<string>)
    requires Names(vars) && WellNamed(segs, vars)
    ensures Scan(Raw(segs), vars, seen) == Built(segs, vars, seen, BRACES)
    decreases |segs|
  {
    if segs == [] {
    } else if segs[0].Slot? {
      ScanSlot(segs, vars, seen);
      ScanOfRaw(segs[1..], vars, seen + {segs[0].name});
    } else if segs[0].Formatted? {
      assert IsSeg(segs[0]);
      ScanField(segs[0].name, segs[0].suffix, Raw(segs[1..]), vars, seen);
      ScanOfRaw(segs[1..], vars, seen);
    } else if DisguiseAt(segs, vars).Some? {
      var v := DisguiseAt(segs, vars).value;
      ScanDisguise(segs, vars, seen);
      ScanOfRaw(segs[|v| + 2..], vars, seen + {v});
    } else {
      ScanOfRaw(segs[1..], vars, seen);
      ScanLiteral(segs, vars, seen);
    }
  }

  lemma ScanDisguise(segs: seq<Seg>, vars: set<string>, seen: set<string>)
    requires Names(vars) && DisguiseAt(segs, vars).Some?
    ensures var v := DisguiseAt(segs, vars).value;
            && |v| + 2 <= |segs| && segs[0].Lit?
            && Scan(Raw(segs), vars, seen) == Hidden(v, seen) + Scan(Raw(segs[|v| + 2..]), vars, seen + {v})
  {
    var v := DisguiseAt(segs, vars).value;
    DisguiseHead(segs, vars);
    DisguiseBody(segs, vars);
    RawOpens(segs);
    ScanHidden(v, Raw(segs[|v| + 2..]), vars, seen);
  }

  lemma RawOpens(segs: seq<Seg>)
    requires segs != [] && segs[0] == Lit('{')
    ensures Raw(segs) == ['{'] + (['{'] + Raw(segs[1..])) && Raw(segs) == ['{', '{'] + Raw(segs[1..])
  {
  }

  lemma ScanLiteral(segs: seq<Seg>, vars: set<string>, seen: set<string>)
    requires Names(vars) && segs != [] && segs[0].Lit? && DisguiseAt(segs, vars) == None
    ensures Scan(Raw(segs), vars, seen) == Literal(segs[0].c, BRACES) + Scan(Raw(segs[1..]), vars, seen)
  {
    if segs[0].c == '{' {
      SecondBrace(segs, vars);
      ScanBraces(Raw(segs[1..]), vars, seen);
      RawOpens(segs);
    } else {
      ScanLit(segs, vars, seen);
    }
  }

  function Undouble(items: seq<Item>, c: char): seq<Item> {
    ReplaceAll(items, [Char(c), Char(c)], Char(c))
  }

  lemma UndoublePair(items: seq<Item>, c: char)
    ensures Undouble([Char(c), Char(c)] + items, c) == [Char(c)] + Undouble(items, c)
  {
    assert ([Char(c), Char(c)] + items)[2..] == items;
  }

  lemma UndoubleSkips(x: Item, items: seq<Item>, c: char)
    requires x != Char(c) || items == [] || items[0] != Char(c)
    ensures Undouble([x] + items, c) == [x] + Undouble(items, c)
  {
    var pair := [Char(c), Char(c)];
    assert pair[0] == Char(c) && pair[1] == Char(c);
    assert ([x] + items)[1..] == items;
  }

  lemma UndoubleLiteral(l: char, items: seq<Item>, cs: set<char>, c: char)
    requires c in cs
    ensures Undouble(Literal(l, cs) + items, c) == Literal(l, cs - {c}) + Undouble(items, c)
  {
    if l == c {
      UndoublePair(items, c);
    } else {
      var x := Char(l);
      UndoubleSkips(x, items, c);
      UndoubleSkips(x, [x] + items, c);
      assert [x, x] + items == [x] + ([x] + items);
      assert [x, x] + Undouble(items, c) == [x] + ([x] + Undouble(items, c));
    }
  }

  /** A single closing brace before doubled ones only shifts the pairs. */
  lemma {:induction false} UndoubleShifts(segs: seq<Seg>, vars: set<string>, seen: set<string>, cs: set<char>)
    requires '}' in cs
    ensures var rest := Built(segs, vars, seen, cs);
            Undouble([Char('}')] + rest, '}') == [Char('}')] + Undouble(rest, '}')
    decreases |segs|
  {
    var rest := Built(segs, vars, seen, cs);
    if segs != [] && DisguiseAt(segs, vars).Some? {
      DisguiseHead(segs, vars);
    }
    if segs != [] && segs[0] == Lit('}') {
      var x, later := Char('}'), Built(segs[1..], vars, seen, cs);
      UndoubleShifts(segs[1..], vars, seen, cs);
      UndoublePair(later, '}');
      UndoublePair([x] + later, '}');
      assert rest == [x, x] + later && [x] + rest == [x, x] + ([x] + later);
    } else {
      UndoubleSkips(Char('}'), rest, '}');
    }
  }

  lemma UndoubleHidden(v: string, seen: set<string>, items: seq<Item>, c: char)
    requires c == '{' || Undouble([Char('}')] + items, c) == [Char('}')] + Undouble(items, c)
    ensures Undouble(Hidden(v, seen) + items, c) == Hidden(v, seen) + Undouble(items, c)
  {
    var two := [Char('}')] + items;
    var three := [Mark(v, seen)] + two;
    if c == '{' {
      UndoubleSkips(Char('}'), items, c);
    }
    UndoubleSkips(Mark(v, seen), two, c);
    UndoubleSkips(Char('{'), three, c);
    HiddenParts(v, seen, items);
    HiddenParts(v, seen, Undouble(items, c));
  }

  lemma {:induction false} UndoubleChars(s: string, items: seq<Item>, c: char)
    requires c !in s
    ensures Undouble(Chars(s) + items, c) == Chars(s) + Undouble(items, c)
  {
    if s == [] {
      assert Chars(s) + items == items;
    } else {
      UndoubleChars(s[1..], items, c);
      UndoubleSkips(Char(s[0]), Chars(s[1..]) + items, c);
      CharsThen(s, items);
      CharsThen(s, Undouble(items, c));
    }
  }

  lemma CharsThen(s: string, items: seq<Item>)
    requires s != []
    ensures Chars(s) + items == [Char(s[0])] + (Chars(s[1..]) + items)
  {
  }

  lemma {:induction false} CharsAppend(s: string, t: string)
    ensures Chars(s + t) == Chars(s) + Chars(t)
  {
    if s == [] {
      assert s + t == t;
    } else {
      assert (s + t)[1..] == s[1..] + t;
      CharsAppend(s[1..], t);
    }
  }

  lemma UndoubleField(field: string, items: seq<Item>, c: char)
    requires Braceless(field) && field != [] && (c == '{' || c == '}')
    requires c == '{' || Undouble([Char('}')] + items, c) == [Char('}')] + Undouble(items, c)
    ensures Undouble(Chars(Token(field)) + items, c) == Chars(Token(field)) + Undouble(items, c)
  {
    if c == '{' {
      var tail := field + ['}'];
      UndoubleChars(tail, items, c);
      CharsCons('{', tail);
      assert Token(field) == ['{'] + tail && Chars(tail)[0] == Char(field[0]) && field[0] in field;
      UndoubleSkips(Char('{'), Chars(tail) + items, c);
      assert Chars(Token(field)) + items == [Char('{')] + (Chars(tail) + items);
    } else {
      var head := ['{'] + field;
      UndoubleChars(head, [Char('}')] + items, c);
      CharsAppend(head, ['}']);
      assert Token(field) == head + ['}'] && Chars(['}']) == [Char('}')];
      assert Chars(Token(field)) + items == Chars(head) + ([Char('}')] + items);
    }
  }

  /** Undoing one brace's doubling leaves the other's. */
  lemma {:induction false} UndoubleOne(segs: seq<Seg>, vars: set<string>, seen: set<string>, cs: set<char>, c: char)
    requires c in cs && c in BRACES && forall seg :: seg in segs ==> IsSeg(seg)
    ensures Undouble(Built(segs, vars, seen, cs), c) == Built(segs, vars, seen, cs - {c})
    decreases |segs|
  {
    if segs == [] {
    } else if segs[0].Slot? {
      UndoubleOne(segs[1..], vars, seen + {segs[0].name}, cs, c);
      UndoubleSkips(Mark(segs[0].name, seen), Built(segs[1..], vars, seen + {segs[0].name}, cs), c);
    } else if segs[0].Formatted? {
      UndoubleOne(segs[1..], vars, seen, cs, c);
      if c == '}' {
        UndoubleShifts(segs[1..], vars, seen, cs);
      }
      assert IsSeg(segs[0]);
      NameBraceless(segs[0].name);
      UndoubleField(segs[0].name + segs[0].suffix, Built(segs[1..], vars, seen, cs), c);
    } else if DisguiseAt(segs, vars).Some? {
      var v := DisguiseAt(segs, vars).value;
      DisguiseHead(segs, vars);
      UndoubleOne(segs[|v| + 2..], vars, seen + {v}, cs, c);
      if c == '}' {
        UndoubleShifts(segs[|v| + 2..], vars, seen + {v}, cs);
      }
      UndoubleHidden(v, seen, Built(segs[|v| + 2..], vars, seen + {v}, cs), c);
    } else {
      UndoubleOne(segs[1..], vars, seen, cs, c);
      UndoubleLiteral(segs[0].c, Built(segs[1..], vars, seen, cs), cs, c);
    }
  }

  // ---- The pattern ----

  /** The pattern the passes make of a body. */
  function Pattern(body: string, variables: seq<string>): seq<Item> {
    Undouble(Undouble(Passes(Chars(body), variables), '{'), '}')
  }

  /** A body that a template with these variables registers with. */
  ghost predicate Registered(body: string, variables: seq<string>) {
    Parse(body).Some? && SlotsOf(Parse(body).value) == SetOf(variables)
  }

  lemma RegisteredNames(body: string, variables: seq<string>)
    requires Registered(body, variables)
    ensures Names(SetOf(variables)) && WellNamed(Parse(body).value, SetOf(variables))
  {
    var segs := Parse(body).value;
    ParseReadsRaw(body);
    forall seg | seg in segs && !seg.Lit? ensures seg.name in SetOf(variables) {
      assert seg.name in SlotsOf(segs);
    }
    forall v | v in SetOf(variables) ensures IsName(v) {
      assert v in SlotsOf(segs);
    }
  }

  /** What the passes build of a body, disguised slots included. */
  lemma PatternBuilt(body: string, variables: seq<string>)
    requires Parse(body).Some? && Names(SetOf(variables)) && WellNamed(Parse(body).value, SetOf(variables))
    ensures Pattern(body, variables) == Built(Parse(body).value, SetOf(variables), {}, {})
  {
    var segs, vars := Parse(body).value, SetOf(variables);
    ParseReadsRaw(body);
    PassesScan(body, variables);
    ScanOfRaw(segs, vars, {});
    UndoubleOne(segs, vars, {}, BRACES, '{');
    UndoubleOne(segs, vars, {}, BRACES - {'{'}, '}');
    assert BRACES - {'{'} - {'}'} == {};
  }

  function Marks(items: seq<Item>): nat {
    if items == [] then 0 else (if items[0].Char? then 0 else 1) + Marks(items[1..])
  }

  lemma MarksCons(x: Item, items: seq<Item>)
    ensures Marks([x] + items) == (if x.Char? then 0 else 1) + Marks(items)
  {
    assert ([x] + items)[1..] == items;
  }

  lemma MarksHidden(v: string, seen: set<string>, items: seq<Item>)
    ensures Marks(Hidden(v, seen) + items) == 1 + Marks(items)
  {
    MarksCons(Char('}'), items);
    MarksCons(Mark(v, seen), [Char('}')] + items);
    MarksCons(Char('{'), [Mark(v, seen)] + ([Char('}')] + items));
    HiddenParts(v, seen, items);
  }

  lemma {:induction false} MarksChars(s: string, items: seq<Item>)
    ensures Marks(Chars(s) + items) == Marks(items)
  {
    if s == [] {
      assert Chars(s) + items == items;
    } else {
      MarksChars(s[1..], items);
      MarksCons(Char(s[0]), Chars(s[1..]) + items);
      CharsThen(s, items);
    }
  }

  function SlotCount(segs: seq<Seg>): nat {
    if segs == [] then 0 else (if segs[0].Slot? then 1 else 0) + SlotCount(segs[1..])
  }

  lemma {:induction false} SlotCountLits(s: string, rest: seq<Seg>)
    ensures SlotCount(Lits(s) + rest) == SlotCount(rest)
  {
    if s == [] {
      assert Lits(s) + rest == rest;
    } else {
      LitsCons(s, rest);
      SlotCountLits(s[1..], rest);
    }
  }

  lemma {:induction false} MarksOfPattern(segs: seq<Seg>, seen: set<string>)
    ensures Marks(PatternOf(segs, seen)) == SlotCount(segs)
  {
    if segs != [] {
      var next := if segs[0].Slot? then seen + {segs[0].name} else seen;
      MarksOfPattern(segs[1..], next);
      if segs[0].Formatted? {
        MarksChars(Token(segs[0].name + segs[0].suffix), PatternOf(segs[1..], next));
      }
    }
  }

  /** A disguise marks more places than there are slots. */
  lemma {:induction false} MarksOfBuilt(segs: seq<Seg>, vars: set<string>, seen: set<string>)
    ensures Marks(Built(segs, vars, seen, {})) >= SlotCount(segs)
    ensures AnyDisguise(segs, vars) ==> Marks(Built(segs, vars, seen, {})) > SlotCount(segs)
    decreases |segs|
  {
    if segs == [] {
    } else if segs[0].Slot? {
      MarksOfBuilt(segs[1..], vars, seen + {segs[0].name});
      if DisguiseAt(segs, vars).Some? {
        DisguiseHead(segs, vars);
      }
    } else if segs[0].Formatted? {
      MarksOfBuilt(segs[1..], vars, seen);
      MarksChars(Token(segs[0].name + segs[0].suffix), Built(segs[1..], vars, seen, {}));
      if DisguiseAt(segs, vars).Some? {
        DisguiseHead(segs, vars);
      }
    } else if DisguiseAt(segs, vars).Some? {
      var v := DisguiseAt(segs, vars).value;
      DisguiseHead(segs, vars);
      MarksOfBuilt(segs[|v| + 2..], vars, seen + {v});
      MarksHidden(v, seen, Built(segs[|v| + 2..], vars, seen + {v}, {}));
      SlotCountLits(Token(v), segs[|v| + 2..]);
    } else {
      MarksOfBuilt(segs[1..], vars, seen);
    }
  }

  lemma {:induction false} FaithfulBuilt(segs: seq<Seg>, vars: set<string>, seen: set<string>)
    requires !AnyDisguise(segs, vars)
    ensures Built(segs, vars, seen, {}) == PatternOf(segs, seen)
  {
    if segs != [] {
      FaithfulBuilt(segs[1..], vars, if segs[0].Slot? then seen + {segs[0].name} else seen);
    }
  }

  /** The passes build the pattern the segments call for exactly when no doubled-brace literal spells a variable. */
  lemma PatternIsFaithfulIff(body: string, variables: seq<string>)
    requires Parse(body).Some? && Names(SetOf(variables)) && WellNamed(Parse(body).value, SetOf(variables))
    ensures Pattern(body, variables) == PatternOf(Parse(body).value, {})
       <==> !Disguised(Parse(body).value, SetOf(variables))
  {
    var segs, vars := Parse(body).value, SetOf(variables);
    PatternBuilt(body, variables);
    DisguisedIff(segs, vars);
    if !Disguised(segs, vars) {
      FaithfulBuilt(segs, vars, {});
    } else {
      MarksOfBuilt(segs, vars, {});
      MarksOfPattern(segs, {});
    }
  }
}
