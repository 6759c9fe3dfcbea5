/**
 The compact JSON printer behind the canonical form of an entitlement: no whitespace, and
 every character outside printable ASCII escaped (RFC 8259, sections 4 and 7; the format
 of Python's json.dumps with separators ',' and ':').

 Strings are sequences of code points, surrogates included, as in Python.  A code point
 above U+FFFF is printed as the escapes of its two UTF-16 code units, so the printer works
 in two stages: `Wire` replaces code points by code units, and `Print` prints code units.
 `PrintCancel` says that the second stage loses nothing, `WireInjective` when the first
 one does not.
 */
module CanonicalJson {

  type CodePoint = c: int | 0 <= c < 0x110000
  type Unit = u: int | 0 <= u < 0x10000
  type Text = seq<CodePoint>

  datatype Member<S> = Member(key: S, value: Json<S>)
  datatype Json<S> =
    | Null
    | Bool(b: bool)
    | Int(n: int)
    | Str(s: S)
    | Arr(items: seq<Json<S>>)
    | Obj(members: seq<Member<S>>)

  type Value = Json<Text>
  type WireValue = Json<seq<Unit>>

  // ---- Code points to code units ----------------------------------------------------

  predicate IsHigh(c: int) { 0xD800 <= c < 0xDC00 }
  predicate IsLow(c: int) { 0xDC00 <= c < 0xE000 }

  function Units(s: Text): seq<Unit> {
    if s == [] then []
    else if s[0] < 0x10000 then [s[0]] + Units(s[1..])
    else [0xD800 + (s[0] - 0x10000) / 0x400, 0xDC00 + (s[0] - 0x10000) % 0x400] + Units(s[1..])
  }

  /** Reads code units back as a JSON decoder does: a high and a low surrogate are one character. */
  function Decode(u: seq<Unit>): Text {
    if u == [] then []
    else if |u| > 1 && IsHigh(u[0]) && IsLow(u[1]) then
      [0x10000 + (u[0] - 0xD800) * 0x400 + (u[1] - 0xDC00)] + Decode(u[2..])
    else [u[0]] + Decode(u[1..])
  }

  /** No two neighbouring code points that together spell a surrogate pair. */
  predicate PairFree(s: Text) {
    forall i :: 0 <= i < |s| - 1 ==> !(IsHigh(s[i]) && IsLow(s[i + 1]))
  }

  lemma {:induction false} UnitsDecode(u: seq<Unit>)
    ensures Units(Decode(u)) == u
  {
    if u != [] {
      if |u| > 1 && IsHigh(u[0]) && IsLow(u[1]) {
        UnitsDecode(u[2..]);
        assert u == [u[0], u[1]] + u[2..];
        assert Decode(u)[1..] == Decode(u[2..]);
      } else {
        UnitsDecode(u[1..]);
        assert Decode(u)[1..] == Decode(u[1..]);
      }
    }
  }

  lemma {:induction false} DecodeUnits(s: Text)
    requires PairFree(s)
    ensures Decode(Units(s)) == s
  {
    if s != [] {
      PairFreeRest(s);
      DecodeUnits(s[1..]);
      UnitsFirst(s[1..]);
      if s[0] < 0x10000 {
        assert Units(s)[1..] == Units(s[1..]);
      } else {
        assert Units(s)[2..] == Units(s[1..]);
      }
    }
  }

  lemma PairFreeRest(s: Text)
    requires s != [] && PairFree(s)
    ensures PairFree(s[1..]) && (|s| > 1 && IsHigh(s[0]) ==> !IsLow(s[1]))
  {
    var rest := s[1..];
    forall i | 0 <= i < |rest| - 1 ensures !(IsHigh(rest[i]) && IsLow(rest[i + 1])) {
      var j := i + 1;
      assert rest[i] == s[j] && rest[i + 1] == s[j + 1];
    }
    assert |s| > 1 ==> !(IsHigh(s[0]) && IsLow(s[0 + 1]));
  }

  lemma UnitsFirst(s: Text)
    ensures s == [] <==> Units(s) == []
    ensures s != [] ==> Units(s)[0] == s[0] || IsHigh(Units(s)[0])
  {
  }

  lemma {:induction false} DecodePairFree(u: seq<Unit>)
    ensures PairFree(Decode(u))
    ensures u != [] ==> Decode(u) != [] && (IsLow(Decode(u)[0]) ==> IsLow(u[0]))
  {
    if u != [] {
      var rest := if |u| > 1 && IsHigh(u[0]) && IsLow(u[1]) then u[2..] else u[1..];
      DecodePairFree(rest);
      var d := Decode(u);
      assert d[1..] == Decode(rest);
      forall i | 0 <= i < |d| - 1 ensures !(IsHigh(d[i]) && IsLow(d[i + 1])) {
        if i > 0 {
          assert d[i] == Decode(rest)[i - 1] && d[i + 1] == Decode(rest)[i - 1 + 1];
        } else {
          assert d[1] == Decode(rest)[0];
        }
      }
    }
  }

  /**
   Exactly when code units determine the text: two texts have the same code units if and
   only if they decode alike, and a text is what its code units decode to if and only if
   it is pair-free.
   */
  lemma UnitsInjective(s: Text, t: Text)
    ensures Units(s) == Units(t) <==> Decode(Units(s)) == Decode(Units(t))
    ensures PairFree(s) <==> Decode(Units(s)) == s
    ensures PairFree(s) && PairFree(t) ==> (Units(s) == Units(t) <==> s == t)
  {
    UnitsDecode(Units(s));
    UnitsDecode(Units(t));
    DecodePairFree(Units(s));
    if PairFree(s) {
      DecodeUnits(s);
    }
    if PairFree(t) {
      DecodeUnits(t);
    }
  }

  /** Every text that is not pair-free is printed like another text, the one it decodes to. */
  lemma SplitPairCollides(s: Text)
    requires !PairFree(s)
    ensures Decode(Units(s)) != s && PairFree(Decode(Units(s)))
    ensures Units(Decode(Units(s))) == Units(s)
    ensures Dumps(Str(s)) == Dumps(Str(Decode(Units(s))))
  {
    UnitsDecode(Units(s));
    DecodePairFree(Units(s));
  }

  // ---- Values to wire values --------------------------------------------------------

  function Wire(v: Value): WireValue
    decreases v, 1
  {
    match v
    case Null => Null
    case Bool(b) => Bool(b)
    case Int(n) => Int(n)
    case Str(s) => Str(Units(s))
    case Arr(items) => Arr(WireItems(items))
    case Obj(members) => Obj(WireMembers(members))
  }

  function WireItems(items: seq<Value>): seq<WireValue>
    decreases items, 0
  {
    if items == [] then [] else [Wire(items[0])] + WireItems(items[1..])
  }

  function WireMembers(members: seq<Member<Text>>): seq<Member<seq<Unit>>>
    decreases members, 0
  {
    if members == [] then [] else [WireMember(members[0])] + WireMembers(members[1..])
  }

  function WireMember(m: Member<Text>): Member<seq<Unit>>
    decreases m, 2
  {
    Member(Units(m.key), Wire(m.value))
  }

  predicate AllPairFree(v: Value)
    decreases v, 1
  {
    match v
    case Null => true
    case Bool(_) => true
    case Int(_) => true
    case Str(s) => PairFree(s)
    case Arr(items) => ItemsPairFree(items)
    case Obj(members) => MembersPairFree(members)
  }

  predicate ItemsPairFree(items: seq<Value>)
    decreases items, 0
  {
    items == [] || (AllPairFree(items[0]) && ItemsPairFree(items[1..]))
  }

  predicate MembersPairFree(members: seq<Member<Text>>)
    decreases members, 0
  {
    members == [] || (MemberPairFree(members[0]) && MembersPairFree(members[1..]))
  }

  predicate MemberPairFree(m: Member<Text>)
    decreases m, 2
  {
    PairFree(m.key) && AllPairFree(m.value)
  }

  lemma {:induction false} WireInjective(v: Value, w: Value)
    requires AllPairFree(v) && AllPairFree(w) && Wire(v) == Wire(w)
    ensures v == w
    decreases v, 1
  {
    match v
    case Null =>
    case Bool(_) =>
    case Int(_) =>
    case Str(s) =>
      UnitsInjective(s, w.s);
    case Arr(items) =>
      WireItemsInjective(items, w.items);
    case Obj(members) =>
      WireMembersInjective(members, w.members);
  }

  lemma {:induction false} WireItemsInjective(a: seq<Value>, b: seq<Value>)
    requires ItemsPairFree(a) && ItemsPairFree(b) && WireItems(a) == WireItems(b)
    ensures a == b
    decreases a, 0
  {
    if a != [] {
      assert b != [];
      assert WireItems(a)[0] == Wire(a[0]) && WireItems(b)[0] == Wire(b[0]);
      assert WireItems(a)[1..] == WireItems(a[1..]) && WireItems(b)[1..] == WireItems(b[1..]);
      WireInjective(a[0], b[0]);
      WireItemsInjective(a[1..], b[1..]);
      assert a == [a[0]] + a[1..] && b == [b[0]] + b[1..];
    } else {
      assert b == [];
    }
  }

  lemma {:induction false} WireMembersInjective(a: seq<Member<Text>>, b: seq<Member<Text>>)
    requires MembersPairFree(a) && MembersPairFree(b) && WireMembers(a) == WireMembers(b)
    ensures a == b
    decreases a, 0
  {
    if a != [] {
      assert b != [];
      assert WireMembers(a)[0] == WireMember(a[0]) && WireMembers(b)[0] == WireMember(b[0]);
      assert WireMembers(a)[1..] == WireMembers(a[1..]) && WireMembers(b)[1..] == WireMembers(b[1..]);
      WireMemberInjective(a[0], b[0]);
      WireMembersInjective(a[1..], b[1..]);
      assert a == [a[0]] + a[1..] && b == [b[0]] + b[1..];
    } else {
      assert b == [];
    }
  }

  lemma {:induction false} WireMemberInjective(m: Member<Text>, n: Member<Text>)
    requires MemberPairFree(m) && MemberPairFree(n) && WireMember(m) == WireMember(n)
    ensures m == n
    decreases m, 2
  {
    UnitsInjective(m.key, n.key);
    WireInjective(m.value, n.value);
  }

  // ---- Printing code units ----------------------------------------------------------

  const HEX: string := "0123456789abcdef"

  function Hex4(u: Unit): string {
    [HEX[u / 0x1000], HEX[u / 0x100 % 0x10], HEX[u / 0x10 % 0x10], HEX[u % 0x10]]
  }

  function EscapeUnit(u: Unit): (e: string)
    ensures e != "" && e[0] != '"'
  {
    if u == 0x22 then "\\\""
    else if u == 0x5C then "\\\\"
    else if u == 0x0A then "\\n"
    else if u == 0x0D then "\\r"
    else if u == 0x09 then "\\t"
    else if u == 0x0C then "\\f"
    else if u == 0x08 then "\\b"
    else if 0x20 <= u <= 0x7E then [u as char]
    else "\\u" + Hex4(u)
  }

  function Escape(units: seq<Unit>): string {
    if units == [] then "" else EscapeUnit(units[0]) + Escape(units[1..])
  }

  function PrintStr(units: seq<Unit>): string {
    "\"" + Escape(units) + "\""
  }

  function Digits(n: nat): string {
    if n < 10 then [HEX[n]] else Digits(n / 10) + [HEX[n % 10]]
  }

  function PrintInt(n: int): string {
    if n < 0 then "-" + Digits(-n) else Digits(n)
  }

  function Print(v: WireValue): string
    decreases v, 1
  {
    match v
    case Null => "null"
    case Bool(b) => if b then "true" else "false"
    case Int(n) => PrintInt(n)
    case Str(s) => PrintStr(s)
    case Arr(items) =>
      if items == [] then "[]" else "[" + (Print(items[0]) + PrintItems(items[1..]))
    case Obj(members) =>
      if members == [] then "{}" else "{" + (PrintMember(members[0]) + PrintMembers(members[1..]))
  }

  /** The items after the first one, and the closing bracket. */
  function PrintItems(items: seq<WireValue>): string
    decreases items, 0
  {
    if items == [] then "]" else "," + (Print(items[0]) + PrintItems(items[1..]))
  }

  function PrintMember(m: Member<seq<Unit>>): string
    decreases m, 2
  {
    PrintStr(m.key) + (":" + Print(m.value))
  }

  function PrintMembers(members: seq<Member<seq<Unit>>>): string
    decreases members, 0
  {
    if members == [] then "}" else "," + (PrintMember(members[0]) + PrintMembers(members[1..]))
  }

  // ---- The printer loses nothing ----------------------------------------------------

  lemma Assoc(a: string, b: string, c: string)
    ensures (a + b) + c == a + (b + c)
  {
  }

  /** Moving what follows a composite text inside it. */
  lemma Unnest(a: string, b: string, c: string, d: string)
    ensures (a + (b + c)) + d == a + (b + (c + d))
  {
  }

  lemma HeadCancel(a: string, b: string, r: string, s: string)
    requires |a| == |b| && a + r == b + s
    ensures a == b && r == s
  {
    assert a == (a + r)[..|a|] && b == (b + s)[..|b|];
    assert r == (a + r)[|a|..] && s == (b + s)[|b|..];
  }

  function HexValue(c: char): int {
    if '0' <= c <= '9' then c as int - '0' as int else c as int - 'a' as int + 10
  }

  lemma HexInverse(d: nat)
    requires d < 16
    ensures HexValue(HEX[d]) == d && HEX[d] != '-' && (d < 10 ==> '0' <= HEX[d] <= '9')
  {
  }

  /** The unit that an escaped text begins with, and the length of its escape. */
  function FirstUnit(t: string): (int, nat) {
    if t == "" then (0, 0)
    else if t[0] != '\\' then (t[0] as int, 1)
    else if |t| < 2 then (0, 0)
    else if t[1] == '"' then (0x22, 2)
    else if t[1] == '\\' then (0x5C, 2)
    else if t[1] == 'n' then (0x0A, 2)
    else if t[1] == 'r' then (0x0D, 2)
    else if t[1] == 't' then (0x09, 2)
    else if t[1] == 'f' then (0x0C, 2)
    else if t[1] == 'b' then (0x08, 2)
    else if |t| < 6 then (0, 0)
    else (HexValue(t[2]) * 0x1000 + HexValue(t[3]) * 0x100 + HexValue(t[4]) * 0x10 + HexValue(t[5]), 6)
  }

  lemma HexInverse4(u: Unit)
    ensures var h := Hex4(u);
            HexValue(h[0]) * 0x1000 + HexValue(h[1]) * 0x100 + HexValue(h[2]) * 0x10 + HexValue(h[3]) == u
  {
    var a, b, c, d := u / 0x1000, u / 0x100 % 0x10, u / 0x10 % 0x10, u % 0x10;
    HexInverse(a);
    HexInverse(b);
    HexInverse(c);
    HexInverse(d);
    assert Hex4(u) == [HEX[a], HEX[b], HEX[c], HEX[d]];
    HexSplit(u);
  }

  lemma HexSplit(u: Unit)
    ensures u / 0x1000 * 0x1000 + u / 0x100 % 0x10 * 0x100 + u / 0x10 % 0x10 * 0x10 + u % 0x10 == u
  {
    assert u / 0x10 / 0x10 == u / 0x100 && u / 0x100 / 0x10 == u / 0x1000;
  }

  lemma FirstUnitHex(u: Unit, rest: string)
    ensures FirstUnit("\\u" + Hex4(u) + rest) == (u, 6)
  {
    var h, t := Hex4(u), "\\u" + Hex4(u) + rest;
    HexInverse4(u);
    assert t[0] == '\\' && t[1] == 'u' && t[2] == h[0] && t[3] == h[1] && t[4] == h[2] && t[5] == h[3];
  }

  lemma FirstUnitEscape(u: Unit, rest: string)
    ensures FirstUnit(EscapeUnit(u) + rest) == (u, |EscapeUnit(u)|)
  {
    var e := EscapeUnit(u);
    if |e| == 6 {
      FirstUnitHex(u, rest);
    } else {
      var t := e + rest;
      assert t[0] == e[0];
      assert |e| == 2 ==> t[1] == e[1];
    }
  }

  lemma EscapeFirst(u: seq<Unit>, r: string)
    ensures (Escape(u) + ("\"" + r))[0] == '"' <==> u == []
  {
    if u != [] {
      Assoc(EscapeUnit(u[0]), Escape(u[1..]), "\"" + r);
    }
  }

  lemma {:induction false} EscapeCancel(a: seq<Unit>, b: seq<Unit>, r: string, s: string)
    requires Escape(a) + ("\"" + r) == Escape(b) + ("\"" + s)
    ensures a == b && r == s
  {
    EscapeFirst(a, r);
    EscapeFirst(b, s);
    if a == [] {
      assert "" + ("\"" + r) == "\"" + r && "" + ("\"" + s) == "\"" + s;
      HeadCancel("\"", "\"", r, s);
    } else {
      var ra, rb := Escape(a[1..]) + ("\"" + r), Escape(b[1..]) + ("\"" + s);
      Assoc(EscapeUnit(a[0]), Escape(a[1..]), "\"" + r);
      Assoc(EscapeUnit(b[0]), Escape(b[1..]), "\"" + s);
      FirstUnitEscape(a[0], ra);
      FirstUnitEscape(b[0], rb);
      HeadCancel(EscapeUnit(a[0]), EscapeUnit(b[0]), ra, rb);
      EscapeCancel(a[1..], b[1..], r, s);
      assert a == [a[0]] + a[1..] && b == [b[0]] + b[1..];
    }
  }

  lemma StrCancel(a: seq<Unit>, b: seq<Unit>, r: string, s: string)
    requires PrintStr(a) + r == PrintStr(b) + s
    ensures a == b && r == s
  {
    Unnest("\"", Escape(a), "\"", r);
    Unnest("\"", Escape(b), "\"", s);
    Assoc("\"", Escape(a), "\"");
    Assoc("\"", Escape(b), "\"");
    HeadCancel("\"", "\"", Escape(a) + ("\"" + r), Escape(b) + ("\"" + s));
    EscapeCancel(a, b, r, s);
  }

  predicate IsDigit(c: char) { '0' <= c <= '9' }

  predicate NoDigitFirst(r: string) { r == "" || !IsDigit(r[0]) }

  function DigitsValue(t: string): int {
    if t == "" then 0 else DigitsValue(t[..|t| - 1]) * 10 + HexValue(t[|t| - 1])
  }

  lemma {:induction false} DigitsInverse(n: nat)
    ensures Digits(n) != "" && (forall c :: c in Digits(n) ==> IsDigit(c)) && DigitsValue(Digits(n)) == n
  {
    var t := Digits(n);
    HexInverse(n % 10);
    if n < 10 {
      assert t[..|t| - 1] == "";
    } else {
      DigitsInverse(n / 10);
      assert t[..|t| - 1] == Digits(n / 10);
    }
  }

  /** How many digits a text starts with. */
  function Span(t: string): nat {
    if t == "" || !IsDigit(t[0]) then 0 else 1 + Span(t[1..])
  }

  lemma {:induction false} SpanLength(a: string, r: string)
    requires (forall c :: c in a ==> IsDigit(c)) && NoDigitFirst(r)
    ensures Span(a + r) == |a|
  {
    if a == "" {
      assert a + r == r;
    } else {
      assert (a + r)[1..] == a[1..] + r;
      assert a[0] in a;
      SpanLength(a[1..], r);
    }
  }

  lemma SpanCancel(a: string, b: string, r: string, s: string)
    requires (forall c :: c in a ==> IsDigit(c)) && (forall c :: c in b ==> IsDigit(c))
    requires NoDigitFirst(r) && NoDigitFirst(s) && a + r == b + s
    ensures a == b && r == s
  {
    SpanLength(a, r);
    SpanLength(b, s);
    HeadCancel(a, b, r, s);
  }

  lemma IntCancel(n: int, m: int, r: string, s: string)
    requires NoDigitFirst(r) && NoDigitFirst(s) && PrintInt(n) + r == PrintInt(m) + s
    ensures n == m && r == s
  {
    var a, b := if n < 0 then -n else n, if m < 0 then -m else m;
    DigitsInverse(a);
    DigitsInverse(b);
    IntFirst(n, r);
    IntFirst(m, s);
    if n < 0 {
      Assoc("-", Digits(a), r);
      Assoc("-", Digits(b), s);
      HeadCancel("-", "-", Digits(a) + r, Digits(b) + s);
    }
    SpanCancel(Digits(a), Digits(b), r, s);
  }

  lemma IntFirst(n: int, r: string)
    ensures PrintInt(n) != "" && (PrintInt(n) + r)[0] == PrintInt(n)[0]
    ensures if n < 0 then PrintInt(n)[0] == '-' else IsDigit(PrintInt(n)[0])
  {
    DigitsInverse(if n < 0 then -n else n);
  }

  /** What can follow a value: the end of the text, a comma or a closing bracket. */
  predicate Follows(r: string) {
    r == "" || r[0] == ',' || r[0] == ']' || r[0] == '}'
  }

  /** The kind of value that a text begins with. */
  function Kind(c: char): int {
    if c == 'n' then 0 else if c == 't' then 1 else if c == 'f' then 2
    else if c == '-' || IsDigit(c) then 3 else if c == '"' then 4
    else if c == '[' then 5 else if c == '{' then 6 else 7
  }

  function KindOf(v: WireValue): int {
    match v
    case Null => 0
    case Bool(b) => if b then 1 else 2
    case Int(_) => 3
    case Str(_) => 4
    case Arr(_) => 5
    case Obj(_) => 6
  }

  lemma PrintFirst(v: WireValue, r: string)
    ensures Print(v) != "" && (Print(v) + r)[0] == Print(v)[0] && Kind(Print(v)[0]) == KindOf(v)
  {
    match v
    case Null =>
    case Bool(_) =>
    case Int(n) => IntFirst(n, r);
    case Str(_) =>
    case Arr(_) =>
    case Obj(_) =>
  }

  /** The printed form of a value can be read off any text that it starts. */
  lemma {:induction false} PrintCancel(v: WireValue, w: WireValue, r: string, s: string)
    requires Print(v) + r == Print(w) + s && Follows(r) && Follows(s)
    ensures v == w && r == s
    decreases v, 1
  {
    PrintFirst(v, r);
    PrintFirst(w, s);
    match v
    case Null => HeadCancel(Print(v), Print(w), r, s);
    case Bool(_) => HeadCancel(Print(v), Print(w), r, s);
    case Int(n) => IntCancel(n, w.n, r, s);
    case Str(a) => StrCancel(a, w.s, r, s);
    case Arr(items) => ArrCancel(items, w.items, r, s);
    case Obj(members) => ObjCancel(members, w.members, r, s);
  }

  /** A printed array and what follows it, after the opening bracket. */
  function ArrRest(a: seq<WireValue>, r: string): string {
    if a == [] then "]" + r else Print(a[0]) + (PrintItems(a[1..]) + r)
  }

  lemma ArrUnnest(a: seq<WireValue>, r: string)
    ensures Print(Arr(a)) + r == "[" + ArrRest(a, r)
  {
    if a == [] {
      Assoc("[", "]", r);
    } else {
      Unnest("[", Print(a[0]), PrintItems(a[1..]), r);
    }
  }

  lemma ArrCancel(a: seq<WireValue>, b: seq<WireValue>, r: string, s: string)
    requires Print(Arr(a)) + r == Print(Arr(b)) + s
    ensures a == b && r == s
    decreases a, 1
  {
    var ra, rb := ArrRest(a, r), ArrRest(b, s);
    ArrUnnest(a, r);
    ArrUnnest(b, s);
    HeadCancel("[", "[", ra, rb);
    if a == [] || b == [] {
      if a != [] { PrintFirst(a[0], PrintItems(a[1..]) + r); }
      if b != [] { PrintFirst(b[0], PrintItems(b[1..]) + s); }
      HeadCancel("]", "]", r, s);
    } else {
      PrintCancel(a[0], b[0], PrintItems(a[1..]) + r, PrintItems(b[1..]) + s);
      ItemsCancel(a[1..], b[1..], r, s);
      assert a == [a[0]] + a[1..] && b == [b[0]] + b[1..];
    }
  }

  lemma {:induction false} ItemsCancel(a: seq<WireValue>, b: seq<WireValue>, r: string, s: string)
    requires PrintItems(a) + r == PrintItems(b) + s
    ensures a == b && r == s
    decreases a, 0
  {
    var first := (PrintItems(a) + r)[0];
    assert first == (if a == [] then ']' else ',') && first == (if b == [] then ']' else ',');
    if a == [] {
      HeadCancel("]", "]", r, s);
    } else {
      var ra, rb := PrintItems(a[1..]) + r, PrintItems(b[1..]) + s;
      Unnest(",", Print(a[0]), PrintItems(a[1..]), r);
      Unnest(",", Print(b[0]), PrintItems(b[1..]), s);
      HeadCancel(",", ",", Print(a[0]) + ra, Print(b[0]) + rb);
      PrintCancel(a[0], b[0], ra, rb);
      ItemsCancel(a[1..], b[1..], r, s);
      assert a == [a[0]] + a[1..] && b == [b[0]] + b[1..];
    }
  }

  lemma {:induction false} MemberCancel(m: Member<seq<Unit>>, n: Member<seq<Unit>>, r: string, s: string)
    requires PrintMember(m) + r == PrintMember(n) + s && Follows(r) && Follows(s)
    ensures m == n && r == s
    decreases m, 2
  {
    var ra, rb := Print(m.value) + r, Print(n.value) + s;
    Unnest(PrintStr(m.key), ":", Print(m.value), r);
    Unnest(PrintStr(n.key), ":", Print(n.value), s);
    StrCancel(m.key, n.key, ":" + ra, ":" + rb);
    HeadCancel(":", ":", ra, rb);
    PrintCancel(m.value, n.value, r, s);
  }

  lemma MemberFirst(m: Member<seq<Unit>>, r: string)
    ensures (PrintMember(m) + r)[0] == '"'
  {
  }

  /** A printed object and what follows it, after the opening bracket. */
  function ObjRest(a: seq<Member<seq<Unit>>>, r: string): string {
    if a == [] then "}" + r else PrintMember(a[0]) + (PrintMembers(a[1..]) + r)
  }

  lemma ObjUnnest(a: seq<Member<seq<Unit>>>, r: string)
    ensures Print(Obj(a)) + r == "{" + ObjRest(a, r)
  {
    if a == [] {
      Assoc("{", "}", r);
    } else {
      Unnest("{", PrintMember(a[0]), PrintMembers(a[1..]), r);
    }
  }

  lemma ObjCancel(a: seq<Member<seq<Unit>>>, b: seq<Member<seq<Unit>>>, r: string, s: string)
    requires Print(Obj(a)) + r == Print(Obj(b)) + s
    ensures a == b && r == s
    decreases a, 1
  {
    var ra, rb := ObjRest(a, r), ObjRest(b, s);
    ObjUnnest(a, r);
    ObjUnnest(b, s);
    HeadCancel("{", "{", ra, rb);
    if a == [] || b == [] {
      if a != [] { MemberFirst(a[0], PrintMembers(a[1..]) + r); }
      if b != [] { MemberFirst(b[0], PrintMembers(b[1..]) + s); }
      HeadCancel("}", "}", r, s);
    } else {
      MemberCancel(a[0], b[0], PrintMembers(a[1..]) + r, PrintMembers(b[1..]) + s);
      MembersCancel(a[1..], b[1..], r, s);
      assert a == [a[0]] + a[1..] && b == [b[0]] + b[1..];
    }
  }

  lemma {:induction false} MembersCancel(a: seq<Member<seq<Unit>>>, b: seq<Member<seq<Unit>>>, r: string, s: string)
    requires PrintMembers(a) + r == PrintMembers(b) + s
    ensures a == b && r == s
    decreases a, 0
  {
    var first := (PrintMembers(a) + r)[0];
    assert first == (if a == [] then '}' else ',') && first == (if b == [] then '}' else ',');
    if a == [] {
      HeadCancel("}", "}", r, s);
    } else {
      var ra, rb := PrintMembers(a[1..]) + r, PrintMembers(b[1..]) + s;
      Unnest(",", PrintMember(a[0]), PrintMembers(a[1..]), r);
      Unnest(",", PrintMember(b[0]), PrintMembers(b[1..]), s);
      HeadCancel(",", ",", PrintMember(a[0]) + ra, PrintMember(b[0]) + rb);
      MemberCancel(a[0], b[0], ra, rb);
      MembersCancel(a[1..], b[1..], r, s);
      assert a == [a[0]] + a[1..] && b == [b[0]] + b[1..];
    }
  }

  // ---- The printer prints the compact form ------------------------------------------

  /** A character for itself, or the shortest escape that stands for it. */
  predicate IsEscape(u: Unit, e: string) {
    var plain := 0x20 <= u <= 0x7E && u != '"' as int && u != '\\' as int;
    var short := u == '"' as int || u == '\\' as int || u in {0x08, 0x09, 0x0A, 0x0C, 0x0D};
    && FirstUnit(e) == (u, |e|)
    && |e| == (if plain then 1 else if short then 2 else 6)
    && (|e| == 6 ==> e[1] == 'u')
  }

  function Flatten(parts: seq<string>): string {
    if parts == [] then "" else parts[0] + Flatten(parts[1..])
  }

  /** The parts with commas between them, and nothing else. */
  function Commas(parts: seq<string>): string {
    if parts == [] then ""
    else if |parts| == 1 then parts[0]
    else parts[0] + ("," + Commas(parts[1..]))
  }

  ghost predicate IsText(u: seq<Unit>, t: string) {
    exists escapes :: EscapesOf(u, escapes) && t == "\"" + Flatten(escapes) + "\""
  }

  predicate EscapesOf(u: seq<Unit>, escapes: seq<string>) {
    |escapes| == |u| && forall i :: 0 <= i < |u| ==> IsEscape(u[i], escapes[i])
  }

  /** Decimal digits without a leading zero, after a minus sign if there is one. */
  predicate IsNumber(n: int, t: string) {
    if n < 0 then t != "" && t[0] == '-' && IsNatural(-n, t[1..]) else IsNatural(n, t)
  }

  predicate IsNatural(n: nat, t: string) {
    t != "" && (forall c :: c in t ==> IsDigit(c)) && DigitsValue(t) == n && (t[0] == '0' ==> t == "0")
  }

  /** The compact text of a value: no whitespace outside strings, items and members in their order. */
  ghost predicate IsCompact(v: WireValue, t: string)
    decreases v, 1
  {
    match v
    case Null => t == "null"
    case Bool(b) => t == if b then "true" else "false"
    case Int(n) => IsNumber(n, t)
    case Str(s) => IsText(s, t)
    case Arr(items) => exists parts :: AreItems(items, parts) && t == "[" + Commas(parts) + "]"
    case Obj(members) => exists parts :: AreMembers(members, parts) && t == "{" + Commas(parts) + "}"
  }

  ghost predicate AreItems(items: seq<WireValue>, parts: seq<string>)
    decreases items, 0
  {
    if items == [] then parts == []
    else parts != [] && IsCompact(items[0], parts[0]) && AreItems(items[1..], parts[1..])
  }

  ghost predicate AreMembers(members: seq<Member<seq<Unit>>>, parts: seq<string>)
    decreases members, 0
  {
    if members == [] then parts == []
    else parts != [] && IsMember(members[0], parts[0]) && AreMembers(members[1..], parts[1..])
  }

  ghost predicate IsMember(m: Member<seq<Unit>>, t: string)
    decreases m, 2
  {
    exists key, value :: IsText(m.key, key) && IsCompact(m.value, value) && t == key + ":" + value
  }

  lemma EscapeIsShortest(u: Unit)
    ensures IsEscape(u, EscapeUnit(u))
  {
    FirstUnitEscape(u, "");
    assert EscapeUnit(u) + "" == EscapeUnit(u);
  }

  lemma {:induction false} EscapeIsFlat(u: seq<Unit>) returns (escapes: seq<string>)
    ensures EscapesOf(u, escapes) && Escape(u) == Flatten(escapes)
  {
    if u == [] {
      escapes := [];
    } else {
      var rest := EscapeIsFlat(u[1..]);
      EscapeIsShortest(u[0]);
      escapes := [EscapeUnit(u[0])] + rest;
      assert escapes[1..] == rest;
    }
  }

  lemma StrIsText(u: seq<Unit>)
    ensures IsText(u, PrintStr(u))
  {
    var escapes := EscapeIsFlat(u);
  }

  lemma {:induction false} DigitsAreNatural(n: nat)
    ensures IsNatural(n, Digits(n)) && (n > 0 ==> Digits(n)[0] != '0')
  {
    DigitsInverse(n);
    if n < 10 {
      HexInverse(n);
    } else {
      DigitsAreNatural(n / 10);
      assert Digits(n)[0] == Digits(n / 10)[0];
    }
  }

  lemma IntIsNumber(n: int)
    ensures IsNumber(n, PrintInt(n))
  {
    DigitsAreNatural(if n < 0 then -n else n);
    if n < 0 {
      assert PrintInt(n)[1..] == Digits(-n);
    }
  }

  lemma {:induction false} ItemsAreCompact(items: seq<WireValue>) returns (parts: seq<string>)
    ensures AreItems(items, parts)
    ensures items != [] ==> Print(items[0]) + PrintItems(items[1..]) == Commas(parts) + "]"
    decreases items, 0
  {
    if items == [] {
      parts := [];
    } else {
      var rest := ItemsAreCompact(items[1..]);
      PrintIsCompact(items[0]);
      parts := [Print(items[0])] + rest;
      assert parts[1..] == rest;
      if items[1..] != [] {
        Assoc(",", Commas(rest), "]");
        Assoc(Print(items[0]), "," + Commas(rest), "]");
      }
    }
  }

  lemma {:induction false} MembersAreCompact(members: seq<Member<seq<Unit>>>) returns (parts: seq<string>)
    ensures AreMembers(members, parts)
    ensures members != [] ==> PrintMember(members[0]) + PrintMembers(members[1..]) == Commas(parts) + "}"
    decreases members, 0
  {
    if members == [] {
      parts := [];
    } else {
      var rest := MembersAreCompact(members[1..]);
      MemberIsCompact(members[0]);
      parts := [PrintMember(members[0])] + rest;
      assert parts[1..] == rest;
      if members[1..] != [] {
        Assoc(",", Commas(rest), "}");
        Assoc(PrintMember(members[0]), "," + Commas(rest), "}");
      }
    }
  }

  lemma {:induction false} MemberIsCompact(m: Member<seq<Unit>>)
    ensures IsMember(m, PrintMember(m))
    decreases m, 2
  {
    StrIsText(m.key);
    PrintIsCompact(m.value);
    Assoc(PrintStr(m.key), ":", Print(m.value));
  }

  /**
   What is printed is the compact JSON text of the value: literals, decimal numbers, strings
   with the shortest escapes, and no other character than brackets, commas and colons.
   */
  lemma {:induction false} PrintIsCompact(v: WireValue)
    ensures IsCompact(v, Print(v))
    decreases v, 1
  {
    match v
    case Null =>
    case Bool(_) =>
    case Int(n) => IntIsNumber(n);
    case Str(s) => StrIsText(s);
    case Arr(items) =>
      var parts := ItemsAreCompact(items);
      if items != [] {
        Assoc("[", Commas(parts), "]");
      }
    case Obj(members) =>
      var parts := MembersAreCompact(members);
      if members != [] {
        Assoc("{", Commas(parts), "}");
      }
  }

  /** json.dumps(v, separators=(',', ':')) */
  function Dumps(v: Value): string {
    Print(Wire(v))
  }

  /** Two values are printed alike exactly when their code units agree. */
  lemma DumpsInjective(v: Value, w: Value)
    ensures Dumps(v) == Dumps(w) <==> Wire(v) == Wire(w)
    ensures AllPairFree(v) && AllPairFree(w) ==> (Dumps(v) == Dumps(w) <==> v == w)
  {
    if Dumps(v) == Dumps(w) {
      assert Print(Wire(v)) + "" == Print(Wire(w)) + "";
      PrintCancel(Wire(v), Wire(w), "", "");
    }
    if AllPairFree(v) && AllPairFree(w) && Wire(v) == Wire(w) {
      WireInjective(v, w);
    }
  }
}
