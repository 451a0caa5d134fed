/** How a prompt template's body becomes a pattern: textual passes over the escaped body, one per variable, against the
    body's parsed meaning. Patterns are sequences of items, since every escape stands for one character. */
module TemplatePattern {
  import opened Wrappers

  datatype Item = Char(c: char) | Group(name: string) | Backref(name: string)

  function Chars(s: string): (items: seq<Item>)
    ensures |items| == |s|
  {
    if s == [] then [] else [Char(s[0])] + Chars(s[1..])
  }

  function Token(name: string): string {
    ['{'] + name + ['}']
  }

  /** A name a slot can have: free of the characters that end a field name or look something up in it, and not a number,
      which would be a position. One that holds > would also end the group's name early, and is left out. */
  predicate IsName(s: string) {
    && (forall i :: 0 <= i < |s| ==> s[i] !in {'{', '}', '!', ':', '.', '[', '>'})
    && exists i :: 0 <= i < |s| && !('0' <= s[i] <= '9')
  }

  ghost predicate Names(vars: set<string>) {
    forall v :: v in vars ==> IsName(v)
  }

  /** A slot captures the first time and refers back after that. */
  function Mark(name: string, seen: set<string>): Item {
    if name in seen then Backref(name) else Group(name)
  }

  // ---- The passes ----

  /** Python's str.replace with a single item for the replacement. */
  function ReplaceAll(items: seq<Item>, token: seq<Item>, sub: Item): seq<Item>
    requires token != []
    decreases |items|
  {
    if items == [] then []
    else if token <= items then [sub] + ReplaceAll(items[|token|..], token, sub)
    else [items[0]] + ReplaceAll(items[1..], token, sub)
  }

  /** Python's str.partition: what precedes the first occurrence and what follows it. */
  function Partition(items: seq<Item>, token: seq<Item>): Option<(seq<Item>, seq<Item>)> {
    if token <= items then Some(([], items[|token|..]))
    else if items == [] then None
    else
      match Partition(items[1..], token)
      case None => None
      case Some((before, after)) => Some(([items[0]] + before, after))
  }

  /** One variable's pass: its first occurrence captures, the others refer back. */
  function Capture(items: seq<Item>, name: string, seen: bool): seq<Item>
    decreases |items|
  {
    if items == [] then []
    else if Chars(Token(name)) <= items
    then [if seen then Backref(name) else Group(name)] + Capture(items[|Chars(Token(name))|..], name, true)
    else [items[0]] + Capture(items[1..], name, seen)
  }

  lemma {:induction false} CharsAt(s: string)
    ensures forall i :: 0 <= i < |s| ==> Chars(s)[i] == Char(s[i])
  {
    if s != [] {
      CharsAt(s[1..]);
    }
  }

  lemma {:induction false} CaptureSeen(items: seq<Item>, name: string)
    ensures Capture(items, name, true) == ReplaceAll(items, Chars(Token(name)), Backref(name))
    decreases |items|
  {
    if items == [] {
    } else if Chars(Token(name)) <= items {
      CaptureSeen(items[|Chars(Token(name))|..], name);
    } else {
      CaptureSeen(items[1..], name);
    }
  }

  /** Splitting at the first occurrence and replacing in what follows is one pass. */
  lemma {:induction false} CaptureFirst(items: seq<Item>, name: string)
    ensures match Partition(items, Chars(Token(name)))
            case None => Capture(items, name, false) == items
            case Some((before, after)) =>
              Capture(items, name, false)
              == before + [Group(name)] + ReplaceAll(after, Chars(Token(name)), Backref(name))
  {
    var token := Chars(Token(name));
    if token <= items {
      CaptureSeen(items[|token|..], name);
    } else if items != [] {
      CaptureFirst(items[1..], name);
      if Partition(items[1..], token).Some? {
        var (before, after) := Partition(items[1..], token).value;
        var tail := ReplaceAll(after, token, Backref(name));
        assert [items[0]] + (before + [Group(name)] + tail) == ([items[0]] + before) + [Group(name)] + tail;
      }
    }
  }

  lemma CaptureSkips(x: Item, items: seq<Item>, name: string, seen: bool)
    requires !(Chars(Token(name)) <= [x] + items)
    ensures Capture([x] + items, name, seen) == [x] + Capture(items, name, seen)
  {
    assert ([x] + items)[1..] == items;
  }

  lemma CaptureTakes(items: seq<Item>, name: string, seen: bool)
    ensures Capture(Chars(Token(name)) + items, name, seen)
         == [if seen then Backref(name) else Group(name)] + Capture(items, name, true)
  {
    assert (Chars(Token(name)) + items)[|Chars(Token(name))|..] == items;
  }

  lemma NoTokenAtSlot(x: Item, items: seq<Item>, name: string)
    requires !x.Char?
    ensures !(Chars(Token(name)) <= [x] + items)
  {
    assert Chars(Token(name))[0] == Char('{');
  }

  // ---- All variables at once ----

  /** The text before the first brace. */
  function BeforeBrace(s: string): string {
    if s == [] || s[0] == '{' || s[0] == '}' then [] else [s[0]] + BeforeBrace(s[1..])
  }

  lemma {:induction false} BeforeBraceOf(name: string, rest: string)
    requires forall i :: 0 <= i < |name| ==> name[i] != '{' && name[i] != '}'
    ensures BeforeBrace(name + ['}'] + rest) == name
  {
    var s := name + ['}'] + rest;
    if name != [] {
      assert s[1..] == name[1..] + ['}'] + rest;
      BeforeBraceOf(name[1..], rest);
    } else {
      assert s[0] == '}';
    }
  }

  lemma {:induction false} BeforeBracePrefix(s: string)
    ensures BeforeBrace(s) <= s
    ensures forall i :: 0 <= i < |BeforeBrace(s)| ==> s[i] != '{' && s[i] != '}'
  {
    if !(s == [] || s[0] == '{' || s[0] == '}') {
      BeforeBracePrefix(s[1..]);
      assert [s[0]] + s[1..] == s;
    }
  }

  /** The variable, among vars, whose token starts the text. */
  function NameAt(s: string, vars: set<string>): Option<string> {
    if s == [] || s[0] != '{' then None
    else
      var name := BeforeBrace(s[1..]);
      if name in vars && Token(name) <= s then Some(name) else None
  }

  lemma NameAtToken(s: string, vars: set<string>, v: string)
    requires IsName(v) && Token(v) <= s
    ensures NameAt(s, vars) == if v in vars then Some(v) else None
  {
    assert s[1..] == v + ['}'] + s[|v| + 2..];
    BeforeBraceOf(v, s[|v| + 2..]);
  }

  /** What the passes over a body produce together. */
  function Scan(body: string, vars: set<string>, seen: set<string>): seq<Item>
    decreases |body|
  {
    if body == [] then []
    else
      match NameAt(body, vars)
      case Some(v) => [Mark(v, seen)] + Scan(body[|v| + 2..], vars, seen + {v})
      case None => [Char(body[0])] + Scan(body[1..], vars, seen)
  }

  lemma {:induction false} ScanSeen(body: string, vars: set<string>, seen: set<string>, v: string)
    requires v !in vars
    ensures Scan(body, vars, seen) == Scan(body, vars, seen + {v})
    decreases |body|
  {
    if body != [] {
      match NameAt(body, vars)
      case Some(u) =>
        ScanSeen(body[|u| + 2..], vars, seen + {u}, v);
        assert seen + {u} + {v} == seen + {v} + {u};
      case None => ScanSeen(body[1..], vars, seen, v);
    }
  }

  /** Characters that start no token are copied. */
  lemma {:induction false} ScanCopies(s: string, rest: string, vars: set<string>, seen: set<string>)
    requires forall i :: 0 <= i < |s| ==> s[i] != '{'
    ensures Scan(s + rest, vars, seen) == Chars(s) + Scan(rest, vars, seen)
  {
    if s == [] {
      assert s + rest == rest;
    } else {
      assert (s + rest)[1..] == s[1..] + rest;
      ScanCopies(s[1..], rest, vars, seen);
    }
  }

  lemma TokenSplits(body: string, v: string)
    requires Token(v) <= body
    ensures body[0] == '{' && body[1..] == v + ['}'] + body[|v| + 2..]
  {
    assert body == Token(v) + body[|v| + 2..];
    assert Token(v)[1..] == v + ['}'];
  }

  lemma ScanToken(body: string, vars: set<string>, seen: set<string>, v: string)
    requires IsName(v) && v !in vars && Token(v) <= body
    ensures Scan(body, vars, seen) == Chars(Token(v)) + Scan(body[|v| + 2..], vars, seen)
  {
    NameAtToken(body, vars, v);
    var tail, rest := v + ['}'], body[|v| + 2..];
    TokenSplits(body, v);
    ScanCopies(tail, rest, vars, seen);
    CharsCons('{', tail);
    assert Token(v) == ['{'] + tail;
    assert Scan(body, vars, seen) == [Char('{')] + (Chars(tail) + Scan(rest, vars, seen));
  }

  lemma CharsCons(c: char, s: string)
    ensures Chars([c] + s) == [Char(c)] + Chars(s)
  {
    assert ([c] + s)[1..] == s;
  }

  lemma {:induction false} CopiedPrefix(s: string, body: string, vars: set<string>, seen: set<string>)
    requires Chars(s) <= Scan(body, vars, seen)
    ensures s <= body
  {
    if s != [] {
      CharsAt(s);
      assert Scan(body, vars, seen)[0] == Chars(s)[0] == Char(s[0]);
      assert Chars(s[1..]) == Chars(s)[1..] <= Scan(body, vars, seen)[1..];
      CopiedPrefix(s[1..], body[1..], vars, seen);
      assert s == [s[0]] + s[1..] && body == [body[0]] + body[1..];
    }
  }

  /** A variable's pass over the scan for some variables gives the scan for one more. */
  lemma {:induction false} CaptureScan(body: string, vars: set<string>, seen: set<string>, v: string)
    requires IsName(v) && v !in vars
    ensures Capture(Scan(body, vars, seen), v, v in seen) == Scan(body, vars + {v}, seen)
    decreases |body|
  {
    if body == [] {
    } else if Token(v) <= body {
      CaptureScan(body[|v| + 2..], vars, seen + {v}, v);
      CaptureScanToken(body, vars, vars + {v}, seen, v);
    } else {
      NameAtMore(body, vars, v);
      if NameAt(body, vars).Some? {
        var u := NameAt(body, vars).value;
        CaptureScan(body[|u| + 2..], vars, seen + {u}, v);
        CaptureScanSlot(body, vars, vars + {v}, seen, u, v);
      } else {
        CaptureScan(body[1..], vars, seen, v);
        CaptureScanChar(body, vars, vars + {v}, seen, v);
      }
    }
  }

  lemma CaptureScanSlot(body: string, vars: set<string>, more: set<string>, seen: set<string>, u: string, v: string)
    requires NameAt(body, vars) == NameAt(body, more) == Some(u)
    requires Capture(Scan(body[|u| + 2..], vars, seen + {u}), v, v in seen) == Scan(body[|u| + 2..], more, seen + {u})
    ensures Capture(Scan(body, vars, seen), v, v in seen) == Scan(body, more, seen)
  {
    CapturePastSlot(body, vars, seen, u, v, v in seen);
  }

  lemma CaptureScanChar(body: string, vars: set<string>, more: set<string>, seen: set<string>, v: string)
    requires body != [] && NameAt(body, vars) == NameAt(body, more) == None && !(Token(v) <= body)
    requires Capture(Scan(body[1..], vars, seen), v, v in seen) == Scan(body[1..], more, seen)
    ensures Capture(Scan(body, vars, seen), v, v in seen) == Scan(body, more, seen)
  {
    CapturePastChar(body, vars, seen, v, v in seen);
  }

  lemma CaptureScanToken(body: string, vars: set<string>, more: set<string>, seen: set<string>, v: string)
    requires IsName(v) && v !in vars && v in more && Token(v) <= body
    requires Capture(Scan(body[|v| + 2..], vars, seen + {v}), v, true) == Scan(body[|v| + 2..], more, seen + {v})
    ensures Capture(Scan(body, vars, seen), v, v in seen) == Scan(body, more, seen)
  {
    NameAtToken(body, more, v);
    ScanToken(body, vars, seen, v);
    CaptureTakes(Scan(body[|v| + 2..], vars, seen), v, v in seen);
    ScanSeen(body[|v| + 2..], vars, seen, v);
  }

  lemma NotCopied(body: string, vars: set<string>, seen: set<string>, v: string)
    requires !(Token(v) <= body)
    ensures !(Chars(Token(v)) <= Scan(body, vars, seen))
  {
    if Chars(Token(v)) <= Scan(body, vars, seen) {
      CopiedPrefix(Token(v), body, vars, seen);
    }
  }

  lemma CapturePastSlot(body: string, vars: set<string>, seen: set<string>, u: string, v: string, known: bool)
    requires NameAt(body, vars) == Some(u)
    ensures Capture(Scan(body, vars, seen), v, known)
         == [Mark(u, seen)] + Capture(Scan(body[|u| + 2..], vars, seen + {u}), v, known)
  {
    var slot := Mark(u, seen);
    NoTokenAtSlot(slot, Scan(body[|u| + 2..], vars, seen + {u}), v);
    CaptureSkips(slot, Scan(body[|u| + 2..], vars, seen + {u}), v, known);
  }

  lemma CapturePastChar(body: string, vars: set<string>, seen: set<string>, v: string, known: bool)
    requires body != [] && NameAt(body, vars) == None && !(Token(v) <= body)
    ensures Capture(Scan(body, vars, seen), v, known) == [Char(body[0])] + Capture(Scan(body[1..], vars, seen), v, known)
  {
    NotCopied(body, vars, seen, v);
    CaptureSkips(Char(body[0]), Scan(body[1..], vars, seen), v, known);
  }

  lemma NameAtMore(s: string, vars: set<string>, v: string)
    requires !(Token(v) <= s)
    ensures NameAt(s, vars + {v}) == NameAt(s, vars)
  {
  }

  /** The variables' passes, in order. */
  function Passes(items: seq<Item>, variables: seq<string>): seq<Item> {
    if variables == [] then items
    else Capture(Passes(items, variables[..|variables| - 1]), variables[|variables| - 1], false)
  }

  lemma {:induction false} NoToken(body: string, vars: set<string>, seen: set<string>, v: string)
    requires IsName(v) && v in vars
    ensures Capture(Scan(body, vars, seen), v, false) == Scan(body, vars, seen)
    decreases |body|
  {
    if body != [] {
      if Token(v) <= body {
        NameAtToken(body, vars, v);
      }
      match NameAt(body, vars)
      case Some(u) =>
        CapturePastSlot(body, vars, seen, u, v, false);
        NoToken(body[|u| + 2..], vars, seen + {u}, v);
      case None =>
        CapturePastChar(body, vars, seen, v, false);
        NoToken(body[1..], vars, seen, v);
    }
  }

  lemma {:induction false} ScanNothing(body: string)
    ensures Scan(body, {}, {}) == Chars(body)
  {
    if body != [] {
      ScanNothing(body[1..]);
    }
  }

  function SetOf(variables: seq<string>): set<string> {
    set v | v in variables
  }

  /** The passes, in any order and with repetitions, are one scan of the body. */
  lemma {:induction false} PassesScan(body: string, variables: seq<string>)
    requires Names(SetOf(variables))
    ensures Passes(Chars(body), variables) == Scan(body, SetOf(variables), {})
  {
    if variables == [] {
      assert SetOf(variables) == {};
      ScanNothing(body);
    } else {
      var init, last := variables[..|variables| - 1], variables[|variables| - 1];
      assert SetOf(variables) == SetOf(init) + {last};
      assert last in SetOf(variables);
      PassesScan(body, init);
      if last in SetOf(init) {
        NoToken(body, SetOf(init), {}, last);
        assert SetOf(variables) == SetOf(init);
      } else {
        CaptureScan(body, SetOf(init), {}, last);
      }
    }
  }
}
