/** JSON values and the canonical text json.dumps gives them (sort_keys=True, separators=(",", ":")).
    The ascii flag is ensure_ascii: the episode audit passes False, the coverage audit True. */
module CanonicalJson {
  import opened StringOrder

  predicate IsDigit(c: char) {
    '0' <= c <= '9'
  }

  predicate IsNumberChar(c: char) {
    IsDigit(c) || c == '-' || c == '+' || c == '.' || c == 'e'
  }

  predicate IsFloatText(s: string) {
    && s != [] && (IsDigit(s[0]) || s[0] == '-')
    && (forall c :: c in s ==> IsNumberChar(c))
    && ('.' in s || 'e' in s)
  }

  /** The repr of a finite float; it always shows a point or an exponent. */
  type FloatText = s: string | IsFloatText(s) witness "0.0"

  datatype Json =
    | Null
    | Bool(b: bool)
    | Int(i: int)
    | Float(text: FloatText)
    | Str(s: string)
    | Arr(items: seq<Json>)
    | Obj(members: map<string, Json>)

  function Digit(d: nat): char
    requires d < 10
  {
    (48 + d) as char
  }

  function NatText(n: nat): (s: string)
    ensures s != [] && forall c :: c in s ==> IsDigit(c)
  {
    if n < 10 then [Digit(n)] else NatText(n / 10) + [Digit(n % 10)]
  }

  function IntText(i: int): (s: string)
    ensures s != [] && forall c :: c in s ==> IsDigit(c) || c == '-'
  {
    if i < 0 then "-" + NatText(-i) else NatText(i)
  }

  function HexDigit(d: nat): char
    requires d < 16
  {
    if d < 10 then (48 + d) as char else (87 + d) as char
  }

  /** The low hexadecimal digits of n, most significant first. */
  function Hex(n: nat, width: nat): (s: string)
    ensures |s| == width
  {
    if width == 0 then [] else Hex(n / 16, width - 1) + [HexDigit(n % 16)]
  }

  /** The letter after the backslash for the characters with a two-character escape
      (section 7 of RFC 8259); any other character maps to itself. */
  function ShortEscape(c: char): char {
    if c == '\n' then 'n' else if c == '\r' then 'r' else if c == '\t' then 't'
    else if c == 8 as char then 'b' else if c == 12 as char then 'f' else c
  }

  predicate HasShortEscape(c: char) {
    c in {'\"', '\\', '\n', '\r', '\t', 8 as char, 12 as char}
  }

  predicate NeedsHex(c: char, ascii: bool) {
    !HasShortEscape(c) && ((c as int) < 0x20 || (ascii && (c as int) >= 0x7f))
  }

  function UnicodeEscape(n: nat): (s: string)
    ensures |s| == 6 && s[0] == '\\' && s[1] == 'u'
  {
    ['\\', 'u'] + Hex(n, 4)
  }

  function HighSurrogate(n: nat): nat
    requires 0x10000 <= n
  {
    0xD800 + (n - 0x10000) / 1024
  }

  function LowSurrogate(n: nat): nat
    requires 0x10000 <= n
  {
    0xDC00 + (n - 0x10000) % 1024
  }

  function HexEscape(n: nat): (s: string)
    ensures |s| >= 2 && s[0] == '\\' && s[1] == 'u'
  {
    if n < 0x10000 then UnicodeEscape(n)
    else UnicodeEscape(HighSurrogate(n)) + UnicodeEscape(LowSurrogate(n))
  }

  function EscapeChar(c: char, ascii: bool): (s: string)
    ensures s != []
  {
    if HasShortEscape(c) then ['\\', ShortEscape(c)]
    else if NeedsHex(c, ascii) then HexEscape(c as int)
    else [c]
  }

  /** The body of a string literal and its closing quote, followed by the text k. */
  function EmitBody(s: string, ascii: bool, k: string): string {
    if s == [] then ['\"'] + k else EscapeChar(s[0], ascii) + EmitBody(s[1..], ascii, k)
  }

  /** The canonical text of j followed by the text k. */
  function Emit(j: Json, ascii: bool, k: string): string
    decreases j, 0
  {
    match j
    case Null => "null" + k
    case Bool(b) => if b then "true" + k else "false" + k
    case Int(i) => IntText(i) + k
    case Float(t) => t + k
    case Str(s) => ['\"'] + EmitBody(s, ascii, k)
    case Arr(xs) => ['['] + EmitItems(xs, ascii, k)
    case Obj(m) => ['{'] + EmitMembers(j, SortedKeys(m.Keys), ascii, k)
  }

  function EmitItems(xs: seq<Json>, ascii: bool, k: string): string
    decreases xs, 1
  {
    if xs == [] then [']'] + k else Emit(xs[0], ascii, EmitMore(xs[1..], ascii, k))
  }

  function EmitMore(xs: seq<Json>, ascii: bool, k: string): string
    decreases xs, 0
  {
    if xs == [] then [']'] + k else [','] + Emit(xs[0], ascii, EmitMore(xs[1..], ascii, k))
  }

  function EmitMembers(j: Json, ks: seq<string>, ascii: bool, k: string): string
    requires j.Obj? && forall key :: key in ks ==> key in j.members
    decreases j, 0, |ks|
  {
    if ks == [] then ['}'] + k
    else
      var rest := if |ks| == 1 then ['}'] + k else [','] + EmitMembers(j, ks[1..], ascii, k);
      ['\"'] + EmitBody(ks[0], ascii, [':'] + Emit(j.members[ks[0]], ascii, rest))
  }

  function Print(j: Json, ascii: bool): string {
    Emit(j, ascii, [])
  }

  // ---- Unique readability of the pieces ----

  /** Text that cannot continue a number. */
  predicate Stops(t: string) {
    t == [] || !IsNumberChar(t[0])
  }

  lemma Cut(a: string, s: string, b: string, t: string)
    requires a + s == b + t && |a| == |b|
    ensures a == b && s == t
  {
    assert a == (a + s)[..|a|] && b == (b + t)[..|b|];
    assert s == (a + s)[|a|..] && t == (b + t)[|b|..];
  }

  lemma Uncons(c: char, s: string, d: char, t: string)
    requires [c] + s == [d] + t
    ensures c == d && s == t
  {
    Cut([c], s, [d], t);
  }

  lemma CharAt(a: string, s: string, b: string, t: string)
    requires a + s == b + t && |a| < |b|
    ensures s != [] && s[0] == b[|a|] && b[|a|] in b
  {
    assert |a + s| == |b + t|;
    assert (a + s)[|a|] == (b + t)[|a|];
  }

  lemma NumberNotLonger(a: string, s: string, b: string, t: string)
    requires forall c :: c in b ==> IsNumberChar(c)
    requires Stops(s) && a + s == b + t
    ensures |b| <= |a|
  {
    if |a| < |b| {
      CharAt(a, s, b, t);
    }
  }

  lemma NumberRun(a: string, s: string, b: string, t: string)
    requires forall c :: c in a || c in b ==> IsNumberChar(c)
    requires Stops(s) && Stops(t) && a + s == b + t
    ensures a == b && s == t
  {
    NumberNotLonger(a, s, b, t);
    NumberNotLonger(b, t, a, s);
    Cut(a, s, b, t);
  }

  lemma {:induction false} NatTextInjective(m: nat, n: nat)
    requires NatText(m) == NatText(n)
    ensures m == n
  {
    var a, b := NatText(m), NatText(n);
    assert a[|a| - 1] == Digit(m % 10) && b[|b| - 1] == Digit(n % 10);
    if m >= 10 && n >= 10 {
      assert NatText(m / 10) == a[..|a| - 1] && NatText(n / 10) == b[..|b| - 1];
      NatTextInjective(m / 10, n / 10);
    }
  }

  lemma IntTextInjective(i: int, j: int)
    requires IntText(i) == IntText(j)
    ensures i == j
  {
    if i < 0 && j < 0 {
      assert NatText(-i) == IntText(i)[1..] && NatText(-j) == IntText(j)[1..];
      NatTextInjective(-i, -j);
    } else if i >= 0 && j >= 0 {
      NatTextInjective(i, j);
    } else {
      var m := if i < 0 then j else i;
      assert '-' == (if i < 0 then IntText(i) else IntText(j))[0];
      assert NatText(m)[0] in NatText(m);
    }
  }

  lemma HexDigitInjective(d: nat, e: nat)
    requires d < 16 && e < 16 && HexDigit(d) == HexDigit(e)
    ensures d == e
  {
  }

  function Power16(width: nat): nat {
    if width == 0 then 1 else 16 * Power16(width - 1)
  }

  lemma {:induction false} HexInjective(m: nat, n: nat, width: nat)
    requires m < Power16(width) && n < Power16(width) && Hex(m, width) == Hex(n, width)
    ensures m == n
  {
    if width > 0 {
      var a, b := Hex(m, width), Hex(n, width);
      assert a[width - 1] == HexDigit(m % 16) && b[width - 1] == HexDigit(n % 16);
      HexDigitInjective(m % 16, n % 16);
      assert a[..width - 1] == Hex(m / 16, width - 1) && b[..width - 1] == Hex(n / 16, width - 1);
      HexInjective(m / 16, n / 16, width - 1);
    }
  }

  lemma UnicodeEscapeReadsOff(m: nat, n: nat, s: string, t: string)
    requires m < 0x10000 && n < 0x10000
    requires UnicodeEscape(m) + s == UnicodeEscape(n) + t
    ensures m == n && s == t
  {
    Cut(UnicodeEscape(m), s, UnicodeEscape(n), t);
    assert UnicodeEscape(m)[2..] == Hex(m, 4) && UnicodeEscape(n)[2..] == Hex(n, 4);
    assert Power16(4) == 16 * (16 * (16 * (16 * Power16(0))));
    HexInjective(m, n, 4);
  }

  predicate IsScalar(n: nat) {
    n < 0xD800 || 0xE000 <= n < 0x110000
  }

  lemma HexEscapesReadOff(m: nat, n: nat, s: string, t: string)
    requires IsScalar(m) && IsScalar(n) && HexEscape(m) + s == HexEscape(n) + t
    ensures m == n && s == t
  {
    var hm, rm := HexEscapeHead(m, s);
    var hn, rn := HexEscapeHead(n, t);
    UnicodeEscapeReadsOff(hm, hn, rm, rn);
    if m >= 0x10000 {
      UnicodeEscapeReadsOff(LowSurrogate(m), LowSurrogate(n), s, t);
    }
  }

  lemma HexEscapeHead(n: nat, s: string) returns (head: nat, rest: string)
    requires IsScalar(n)
    ensures head < 0x10000 && HexEscape(n) + s == UnicodeEscape(head) + rest
    ensures n < 0x10000 ==> head == n && rest == s
    ensures n >= 0x10000 ==> head == HighSurrogate(n) && rest == UnicodeEscape(LowSurrogate(n)) + s
  {
    head := if n < 0x10000 then n else HighSurrogate(n);
    rest := if n < 0x10000 then s else UnicodeEscape(LowSurrogate(n)) + s;
    assert n >= 0x10000 ==> HexEscape(n) + s == UnicodeEscape(HighSurrogate(n)) + (UnicodeEscape(LowSurrogate(n)) + s);
  }

  /** Escapes form a prefix code: the first one in a text can be read off. */
  lemma EscapeReadsOff(c: char, d: char, ascii: bool, s: string, t: string)
    requires EscapeChar(c, ascii) + s == EscapeChar(d, ascii) + t
    ensures c == d && s == t
  {
    var e, f := EscapeChar(c, ascii), EscapeChar(d, ascii);
    assert e[0] == (e + s)[0] == (f + t)[0] == f[0];
    if |e| > 1 && |f| > 1 {
      assert e[1] == (e + s)[1] == (f + t)[1] == f[1];
    }
    if NeedsHex(c, ascii) && NeedsHex(d, ascii) {
      HexEscapesReadOff(c as int, d as int, s, t);
    } else {
      Cut(e, s, f, t);
    }
  }

  lemma BodyStart(a: string, ascii: bool, k: string)
    ensures EmitBody(a, ascii, k) != []
    ensures EmitBody(a, ascii, k)[0] == '\"' <==> a == []
  {
    if a != [] {
      assert EmitBody(a, ascii, k)[0] == EscapeChar(a[0], ascii)[0];
    }
  }

  lemma {:induction false} BodyReadsOff(a: string, b: string, ascii: bool, s: string, t: string)
    requires EmitBody(a, ascii, s) == EmitBody(b, ascii, t)
    ensures a == b && s == t
    decreases |a|
  {
    BodyStart(a, ascii, s);
    BodyStart(b, ascii, t);
    if a != [] && b != [] {
      EscapeReadsOff(a[0], b[0], ascii, EmitBody(a[1..], ascii, s), EmitBody(b[1..], ascii, t));
      BodyReadsOff(a[1..], b[1..], ascii, s, t);
    } else {
      Uncons('\"', s, '\"', t);
    }
  }

  // ---- The whole text ----

  /** The kind of value a text starts, told from its first character. */
  function KindOf(c: char): nat {
    if c == 'n' then 0 else if c == 't' then 1 else if c == 'f' then 2 else if c == '\"' then 3
    else if c == '[' then 4 else if c == '{' then 5 else if IsDigit(c) || c == '-' then 6 else 7
  }

  lemma EmitStart(j: Json, ascii: bool, k: string)
    ensures Emit(j, ascii, k) != []
    ensures KindOf(Emit(j, ascii, k)[0]) ==
            match j
            case Null => 0
            case Bool(b) => if b then 1 else 2
            case Str(_) => 3
            case Arr(_) => 4
            case Obj(_) => 5
            case Int(_) => 6
            case Float(_) => 6
  {
    match j
    case Int(i) => assert IntText(i)[0] in IntText(i) && Emit(j, ascii, k)[0] == IntText(i)[0];
    case Float(t) => assert Emit(j, ascii, k)[0] == t[0];
    case _ =>
  }

  function NumberText(j: Json): string
    requires j.Int? || j.Float?
  {
    if j.Int? then IntText(j.i) else j.text
  }

  lemma NumbersReadOff(a: Json, b: Json, s: string, t: string)
    requires a.Int? || a.Float?
    requires b.Int? || b.Float?
    requires Stops(s) && Stops(t) && NumberText(a) + s == NumberText(b) + t
    ensures a == b && s == t
  {
    NumberRun(NumberText(a), s, NumberText(b), t);
    if a.Int? && b.Int? {
      IntTextInjective(a.i, b.i);
    }
  }

  /** A canonical text is read back in one way only, whatever follows it. */
  lemma {:induction false} EmitReadsOff(a: Json, b: Json, ascii: bool, s: string, t: string)
    requires Emit(a, ascii, s) == Emit(b, ascii, t)
    requires Stops(s) && Stops(t)
    ensures a == b && s == t
    decreases a, 2
  {
    EmitStart(a, ascii, s);
    EmitStart(b, ascii, t);
    if a.Int? || a.Float? {
      NumbersReadOff(a, b, s, t);
    } else if a.Arr? {
      Uncons('[', EmitItems(a.items, ascii, s), '[', EmitItems(b.items, ascii, t));
      ItemsReadOff(a.items, b.items, ascii, s, t);
    } else if a.Obj? {
      ObjectsReadOff(a, b, ascii, s, t);
    } else {
      LiteralsReadOff(a, b, ascii, s, t);
    }
  }

  lemma LiteralsReadOff(a: Json, b: Json, ascii: bool, s: string, t: string)
    requires (a == b && (a.Null? || a.Bool?)) || (a.Str? && b.Str?)
    requires Emit(a, ascii, s) == Emit(b, ascii, t)
    ensures a == b && s == t
  {
    if a.Str? {
      Uncons('\"', EmitBody(a.s, ascii, s), '\"', EmitBody(b.s, ascii, t));
      BodyReadsOff(a.s, b.s, ascii, s, t);
    } else {
      var word := if a.Null? then "null" else if a.b then "true" else "false";
      Cut(word, s, word, t);
    }
  }

  lemma ObjectsReadOff(a: Json, b: Json, ascii: bool, s: string, t: string)
    requires a.Obj? && b.Obj? && Emit(a, ascii, s) == Emit(b, ascii, t)
    ensures a == b && s == t
    decreases a, 1
  {
    var ks, ls := SortedKeys(a.members.Keys), SortedKeys(b.members.Keys);
    Uncons('{', EmitMembers(a, ks, ascii, s), '{', EmitMembers(b, ls, ascii, t));
    MembersReadOff(a, b, ks, ls, ascii, s, t);
    SameMembers(a.members, b.members, ks);
  }

  lemma SameMembers(m: map<string, Json>, n: map<string, Json>, ks: seq<string>)
    requires forall k :: k in ks <==> k in m
    requires forall k :: k in ks <==> k in n
    requires forall k :: k in ks ==> m[k] == n[k]
    ensures m == n
  {
  }

  lemma ItemsStart(xs: seq<Json>, ascii: bool, k: string)
    ensures EmitItems(xs, ascii, k) != []
    ensures EmitItems(xs, ascii, k)[0] == ']' <==> xs == []
  {
    if xs != [] {
      EmitStart(xs[0], ascii, EmitMore(xs[1..], ascii, k));
    }
  }

  lemma ItemsReadOff(xs: seq<Json>, ys: seq<Json>, ascii: bool, s: string, t: string)
    requires EmitItems(xs, ascii, s) == EmitItems(ys, ascii, t)
    ensures xs == ys && s == t
    decreases xs, 1
  {
    ItemsStart(xs, ascii, s);
    ItemsStart(ys, ascii, t);
    if xs == [] {
      Uncons(']', s, ']', t);
    } else {
      EmitReadsOff(xs[0], ys[0], ascii, EmitMore(xs[1..], ascii, s), EmitMore(ys[1..], ascii, t));
      MoreReadsOff(xs[1..], ys[1..], ascii, s, t);
      assert xs == [xs[0]] + xs[1..] && ys == [ys[0]] + ys[1..];
    }
  }

  lemma {:induction false} MoreReadsOff(xs: seq<Json>, ys: seq<Json>, ascii: bool, s: string, t: string)
    requires EmitMore(xs, ascii, s) == EmitMore(ys, ascii, t)
    ensures xs == ys && s == t
    decreases xs, 0
  {
    var cx, cy := if xs == [] then ']' else ',', if ys == [] then ']' else ',';
    var tx := if xs == [] then s else Emit(xs[0], ascii, EmitMore(xs[1..], ascii, s));
    var ty := if ys == [] then t else Emit(ys[0], ascii, EmitMore(ys[1..], ascii, t));
    Uncons(cx, tx, cy, ty);
    if xs != [] {
      EmitReadsOff(xs[0], ys[0], ascii, EmitMore(xs[1..], ascii, s), EmitMore(ys[1..], ascii, t));
      MoreReadsOff(xs[1..], ys[1..], ascii, s, t);
      assert xs == [xs[0]] + xs[1..] && ys == [ys[0]] + ys[1..];
    }
  }

  lemma MembersStart(a: Json, ks: seq<string>, ascii: bool, k: string)
    requires a.Obj? && forall key :: key in ks ==> key in a.members
    ensures EmitMembers(a, ks, ascii, k) != []
    ensures EmitMembers(a, ks, ascii, k)[0] == if ks == [] then '}' else '\"'
  {
  }

  /** What follows a member's value. */
  function MemberTail(a: Json, ks: seq<string>, ascii: bool, k: string): string
    requires a.Obj? && ks != [] && forall key :: key in ks ==> key in a.members
  {
    if |ks| == 1 then ['}'] + k else [','] + EmitMembers(a, ks[1..], ascii, k)
  }

  lemma TailsReadOff(a: Json, b: Json, ks: seq<string>, ls: seq<string>, ascii: bool, s: string, t: string)
    requires a.Obj? && b.Obj? && ks != [] && ls != []
    requires (forall k :: k in ks ==> k in a.members) && (forall l :: l in ls ==> l in b.members)
    requires MemberTail(a, ks, ascii, s) == MemberTail(b, ls, ascii, t)
    ensures |ks| == 1 <==> |ls| == 1
    ensures |ks| == 1 ==> s == t
    ensures |ks| > 1 ==> EmitMembers(a, ks[1..], ascii, s) == EmitMembers(b, ls[1..], ascii, t)
  {
    Uncons(if |ks| == 1 then '}' else ',', if |ks| == 1 then s else EmitMembers(a, ks[1..], ascii, s),
           if |ls| == 1 then '}' else ',', if |ls| == 1 then t else EmitMembers(b, ls[1..], ascii, t));
  }

  lemma {:induction false} MembersReadOff(
      a: Json, b: Json, ks: seq<string>, ls: seq<string>, ascii: bool, s: string, t: string)
    requires a.Obj? && b.Obj?
    requires forall k :: k in ks ==> k in a.members
    requires forall l :: l in ls ==> l in b.members
    requires EmitMembers(a, ks, ascii, s) == EmitMembers(b, ls, ascii, t)
    ensures ks == ls && s == t
    ensures forall k :: k in ks ==> a.members[k] == b.members[k]
    decreases a, 0, |ks|
  {
    MembersStart(a, ks, ascii, s);
    MembersStart(b, ls, ascii, t);
    if ks != [] && ls != [] {
      var x, y := MemberTail(a, ks, ascii, s), MemberTail(b, ls, ascii, t);
      var va, vb := Emit(a.members[ks[0]], ascii, x), Emit(b.members[ls[0]], ascii, y);
      Uncons('\"', EmitBody(ks[0], ascii, [':'] + va), '\"', EmitBody(ls[0], ascii, [':'] + vb));
      BodyReadsOff(ks[0], ls[0], ascii, [':'] + va, [':'] + vb);
      Uncons(':', va, ':', vb);
      EmitReadsOff(a.members[ks[0]], b.members[ls[0]], ascii, x, y);
      TailsReadOff(a, b, ks, ls, ascii, s, t);
      if |ks| > 1 {
        MembersReadOff(a, b, ks[1..], ls[1..], ascii, s, t);
      }
      assert ks == [ks[0]] + ks[1..] && ls == [ls[0]] + ls[1..];
    } else {
      Uncons('}', s, '}', t);
    }
  }

  /** Two values share their canonical text only if they are the same value. */
  lemma PrintInjective(a: Json, b: Json, ascii: bool)
    requires Print(a, ascii) == Print(b, ascii)
    ensures a == b
  {
    EmitReadsOff(a, b, ascii, [], []);
  }
}
