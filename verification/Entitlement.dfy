/**
 Commercial entitlement tokens: the canonical bytes that are signed, and the verification
 of a token against a keyring and a clock.
 */
module Entitlement {
  import opened Prelude
  import opened CanonicalJson

  // A payload is a Python dict: keys are distinct, and the order is that of insertion.
  type Payload = seq<Member<Text>>

  function Ascii(s: string): (t: Text)
    ensures |t| == |s| && forall i :: 0 <= i < |s| ==> t[i] == s[i] as int
  {
    seq(|s|, i requires 0 <= i < |s| => s[i] as int)
  }

  predicate DistinctKeys(p: Payload) {
    forall i, j :: 0 <= i < j < |p| ==> p[i].key != p[j].key
  }

  const SIGNATURE: Text := Ascii("signature")

  /** Comparison of Python strings: by code point, a proper prefix first. */
  predicate Before(a: Text, b: Text) {
    b != [] && (a == [] || a[0] < b[0] || (a[0] == b[0] && Before(a[1..], b[1..])))
  }

  function Unsigned(p: Payload): Payload {
    if p == [] then []
    else (if p[0].key == SIGNATURE then [] else [p[0]]) + Unsigned(p[1..])
  }

  function Insert(m: Member<Text>, sorted: Payload): Payload {
    if sorted == [] || Before(m.key, sorted[0].key) then [m] + sorted
    else [sorted[0]] + Insert(m, sorted[1..])
  }

  function SortByKey(p: Payload): Payload {
    if p == [] then [] else Insert(p[0], SortByKey(p[1..]))
  }

  function Canonicalize(p: Payload): string {
    Dumps(Obj(SortByKey(Unsigned(p))))
  }

  function Get(p: Payload, key: Text): Option<Value> {
    if p == [] then None else if p[0].key == key then Some(p[0].value) else Get(p[1..], key)
  }

  function SignedKeys(p: Payload): set<Text> {
    set m | m in p && m.key != SIGNATURE :: m.key
  }

  /** What the signature covers: every field but the signature, values in their own order. */
  function SignedFields(p: Payload): map<Text, Option<Value>> {
    map k | k in SignedKeys(p) :: Get(p, k)
  }

  // ---- Sorting does not depend on insertion order -----------------------------------

  lemma {:induction false} BeforeTotal(a: Text, b: Text)
    ensures a == b || Before(a, b) || Before(b, a)
    ensures !(Before(a, b) && Before(b, a)) && !Before(a, a)
  {
    if a != [] && b != [] && a[0] == b[0] {
      BeforeTotal(a[1..], b[1..]);
      assert a == [a[0]] + a[1..] && b == [b[0]] + b[1..];
    }
    if a != [] {
      BeforeTotal(a[1..], a[1..]);
    }
  }

  lemma PrefixFirst(a: Text, b: Text)
    ensures forall k :: 0 < k <= |a| && k <= |b| && a[..k] == b[..k] ==> a[0] == b[0]
  {
    forall k | 0 < k <= |a| && k <= |b| && a[..k] == b[..k] ensures a[0] == b[0] {
      assert a[0] == a[..k][0] && b[0] == b[..k][0];
    }
  }

  /** In terms of code points: at the first difference the smaller one, or the end of the text, comes first. */
  lemma {:induction false} BeforeMeans(a: Text, b: Text)
    ensures Before(a, b) <==>
              exists k :: 0 <= k <= |a| && k < |b| && a[..k] == b[..k] && (k < |a| ==> a[k] < b[k])
  {
    if a != [] && b != [] && a[0] == b[0] {
      var x, y := a[1..], b[1..];
      BeforeMeans(x, y);
      if Before(x, y) {
        var k :| 0 <= k <= |x| && k < |y| && x[..k] == y[..k] && (k < |x| ==> x[k] < y[k]);
        assert a[..k + 1] == [a[0]] + x[..k] && b[..k + 1] == [b[0]] + y[..k];
      }
      forall k | 0 <= k <= |a| && k < |b| && a[..k] == b[..k] && (k < |a| ==> a[k] < b[k]) ensures Before(x, y) {
        assert k > 0 && x[..k - 1] == a[..k][1..] && y[..k - 1] == b[..k][1..];
      }
    } else {
      assert a[..0] == b[..0];
      PrefixFirst(a, b);
    }
  }

  lemma {:induction false} BeforeTransitive(a: Text, b: Text, c: Text)
    requires Before(a, b) && Before(b, c)
    ensures Before(a, c)
  {
    if a != [] && a[0] == b[0] && b[0] == c[0] {
      BeforeTransitive(a[1..], b[1..], c[1..]);
    }
  }

  predicate Sorted(p: Payload) {
    forall i, j :: 0 <= i < j < |p| ==> Before(p[i].key, p[j].key)
  }

  predicate SameMembers(p: Payload, q: Payload) {
    (forall m :: m in p ==> m in q) && (forall m :: m in q ==> m in p)
  }

  lemma {:induction false} InsertSorts(m: Member<Text>, p: Payload)
    requires Sorted(p) && forall n :: n in p ==> n.key != m.key
    ensures Sorted(Insert(m, p)) && SameMembers(Insert(m, p), [m] + p)
  {
    var r := Insert(m, p);
    if p != [] && !Before(m.key, p[0].key) {
      var rest := p[1..];
      assert p == [p[0]] + rest;
      InsertSorts(m, rest);
      BeforeTotal(m.key, p[0].key);
      assert p[0] in p;
      forall i, j | 0 <= i < j < |r| ensures Before(r[i].key, r[j].key) {
        if i == 0 {
          assert r[j] in Insert(m, rest);
          assert r[j] in [m] + rest;
        } else {
          assert r[i] == Insert(m, rest)[i - 1] && r[j] == Insert(m, rest)[j - 1];
        }
      }
    } else {
      forall i, j | 0 <= i < j < |r| ensures Before(r[i].key, r[j].key) {
        if i == 0 && j > 1 {
          BeforeTransitive(m.key, p[0].key, p[j - 1].key);
        }
      }
    }
  }

  lemma {:induction false} SortSorts(p: Payload)
    requires DistinctKeys(p)
    ensures Sorted(SortByKey(p)) && SameMembers(SortByKey(p), p)
  {
    if p != [] {
      assert p == [p[0]] + p[1..];
      SortSorts(p[1..]);
      InsertSorts(p[0], SortByKey(p[1..]));
    }
  }

  lemma SortedHead(p: Payload, q: Payload)
    requires p != [] && q != [] && Sorted(p) && Sorted(q) && SameMembers(p, q)
    ensures p[0] == q[0]
  {
    assert p[0] in q && q[0] in p;
    var i :| 0 <= i < |q| && q[i] == p[0];
    var j :| 0 <= j < |p| && p[j] == q[0];
    BeforeTotal(p[0].key, q[0].key);
  }

  lemma {:induction false} SortedUnique(p: Payload, q: Payload)
    requires Sorted(p) && Sorted(q) && SameMembers(p, q)
    ensures p == q
  {
    BothEmpty(p, q);
    if p != [] {
      SortedHead(p, q);
      assert p == [p[0]] + p[1..] && q == [q[0]] + q[1..];
      HeadNotInRest(p);
      HeadNotInRest(q);
      forall m | m in p[1..] ensures m in q[1..] {
        assert m in p && m in q;
      }
      forall m | m in q[1..] ensures m in p[1..] {
        assert m in q && m in p;
      }
      SortedUnique(p[1..], q[1..]);
    }
  }

  lemma BothEmpty(p: Payload, q: Payload)
    requires SameMembers(p, q)
    ensures p == [] <==> q == []
  {
    if p != [] {
      assert p[0] in q;
    }
    if q != [] {
      assert q[0] in p;
    }
  }

  lemma HeadNotInRest(p: Payload)
    requires p != [] && Sorted(p)
    ensures p[0] !in p[1..]
  {
    forall i | 0 <= i < |p[1..]| ensures p[1..][i] != p[0] {
      assert Before(p[0].key, p[i + 1].key);
      BeforeTotal(p[0].key, p[0].key);
    }
  }

  lemma {:induction false} UnsignedMembers(p: Payload)
    requires DistinctKeys(p)
    ensures DistinctKeys(Unsigned(p))
    ensures forall m :: m in Unsigned(p) <==> m in p && m.key != SIGNATURE
  {
    if p != [] {
      UnsignedMembers(p[1..]);
      assert p == [p[0]] + p[1..];
      var u, rest := Unsigned(p), Unsigned(p[1..]);
      if p[0].key == SIGNATURE {
        assert u == rest;
      } else {
        assert forall j :: 0 < j < |u| ==> u[j] == rest[j - 1] && rest[j - 1] in p[1..];
        assert forall n :: n in p[1..] ==> n.key != p[0].key;
      }
    }
  }

  lemma FieldsAreMembers(p: Payload, q: Payload)
    requires DistinctKeys(p) && DistinctKeys(q)
    ensures SignedFields(p) == SignedFields(q) <==> SameMembers(Unsigned(p), Unsigned(q))
  {
    UnsignedMembers(p);
    UnsignedMembers(q);
    FieldsCover(p);
    FieldsCover(q);
    if SignedFields(p) == SignedFields(q) {
      forall m | m in Unsigned(p) ensures m in Unsigned(q) {
        assert m.key in SignedFields(q) && SignedFields(q)[m.key] == Some(m.value);
      }
      forall m | m in Unsigned(q) ensures m in Unsigned(p) {
        assert m.key in SignedFields(p) && SignedFields(p)[m.key] == Some(m.value);
      }
    }
    if SameMembers(Unsigned(p), Unsigned(q)) {
      assert SignedFields(p).Keys == SignedFields(q).Keys;
    }
  }

  lemma {:induction false} GetIsMember(p: Payload, key: Text)
    requires DistinctKeys(p)
    ensures Get(p, key).Some? ==> Member(key, Get(p, key).value) in p
    ensures forall m :: m in p && m.key == key ==> Get(p, key) == Some(m.value)
  {
    if p != [] {
      GetIsMember(p[1..], key);
      assert p == [p[0]] + p[1..];
    }
  }

  lemma FieldsCover(p: Payload)
    requires DistinctKeys(p)
    ensures forall m :: m in p && m.key != SIGNATURE ==>
              m.key in SignedFields(p) && SignedFields(p)[m.key] == Some(m.value)
    ensures forall k :: k in SignedFields(p) ==>
              k != SIGNATURE && SignedFields(p)[k].Some? && Member(k, SignedFields(p)[k].value) in p
  {
    forall m | m in p && m.key != SIGNATURE
      ensures m.key in SignedFields(p) && SignedFields(p)[m.key] == Some(m.value)
    {
      GetIsMember(p, m.key);
      assert m.key in SignedKeys(p);
    }
    forall k | k in SignedFields(p)
      ensures k != SIGNATURE && SignedFields(p)[k].Some? && Member(k, SignedFields(p)[k].value) in p
    {
      GetIsMember(p, k);
    }
  }

  /** Keys and values of the payload contain no split surrogate pair. */
  predicate WellEncoded(p: Payload) {
    forall m :: m in p ==> MemberPairFree(m)
  }

  lemma {:induction false} MembersEncoded(p: Payload)
    requires WellEncoded(p)
    ensures MembersPairFree(p)
  {
    if p != [] {
      assert p[0] in p;
      assert forall m :: m in p[1..] ==> m in p;
      MembersEncoded(p[1..]);
    }
  }

  /** The canonical bytes do not depend on the insertion order of fields or on the signature. */
  lemma CanonicalDeterministic(p: Payload, q: Payload)
    requires DistinctKeys(p) && DistinctKeys(q) && SignedFields(p) == SignedFields(q)
    ensures Canonicalize(p) == Canonicalize(q)
  {
    FieldsAreMembers(p, q);
    UnsignedMembers(p);
    UnsignedMembers(q);
    SortSorts(Unsigned(p));
    SortSorts(Unsigned(q));
    SortedUnique(SortByKey(Unsigned(p)), SortByKey(Unsigned(q)));
  }

  /** The unsigned fields in key order, every text as its code units. */
  function SortedWire(p: Payload): seq<Member<seq<Unit>>> {
    WireMembers(SortByKey(Unsigned(p)))
  }

  /**
   For all payloads the canonical bytes determine the sorted fields up to the code units of
   their texts, and for texts without split surrogate pairs the signed fields themselves.
   */
  lemma CanonicalFaithful(p: Payload, q: Payload)
    requires DistinctKeys(p) && DistinctKeys(q)
    ensures Canonicalize(p) == Canonicalize(q) <==> SortedWire(p) == SortedWire(q)
    ensures WellEncoded(p) && WellEncoded(q) ==>
              (Canonicalize(p) == Canonicalize(q) <==> SignedFields(p) == SignedFields(q))
  {
    UnsignedMembers(p);
    UnsignedMembers(q);
    var a, b := SortByKey(Unsigned(p)), SortByKey(Unsigned(q));
    SortSorts(Unsigned(p));
    SortSorts(Unsigned(q));
    DumpsInjective(Obj(a), Obj(b));
    if WellEncoded(p) && WellEncoded(q) {
      MembersEncoded(a);
      MembersEncoded(b);
      FieldsAreMembers(p, q);
      if SignedFields(p) == SignedFields(q) {
        CanonicalDeterministic(p, q);
      }
    }
  }

  // ---- Replacing a value ------------------------------------------------------------

  /** The payload with value v under key k. */
  function WithValue(p: Payload, k: Text, v: Value): Payload {
    if p == [] then []
    else [if p[0].key == k then Member(k, v) else p[0]] + WithValue(p[1..], k, v)
  }

  lemma {:induction false} WithValueAt(p: Payload, k: Text, v: Value)
    ensures |WithValue(p, k, v)| == |p|
    ensures forall i :: 0 <= i < |p| ==> WithValue(p, k, v)[i] == if p[i].key == k then Member(k, v) else p[i]
  {
    if p != [] {
      WithValueAt(p[1..], k, v);
    }
  }

  lemma {:induction false} UnsignedWithValue(p: Payload, k: Text, v: Value)
    requires k != SIGNATURE
    ensures Unsigned(WithValue(p, k, v)) == WithValue(Unsigned(p), k, v)
  {
    if p != [] {
      UnsignedWithValue(p[1..], k, v);
      assert WithValue(p, k, v)[1..] == WithValue(p[1..], k, v);
      if p[0].key == SIGNATURE {
        assert Unsigned(p) == Unsigned(p[1..]);
      } else {
        assert Unsigned(p)[1..] == Unsigned(p[1..]);
      }
    }
  }

  lemma {:induction false} InsertWithValue(m: Member<Text>, s: Payload, k: Text, v: Value)
    ensures Insert(if m.key == k then Member(k, v) else m, WithValue(s, k, v)) == WithValue(Insert(m, s), k, v)
  {
    var n := if m.key == k then Member(k, v) else m;
    WithValueAt(s, k, v);
    if s == [] || Before(m.key, s[0].key) {
      assert ([m] + s)[1..] == s;
    } else {
      InsertWithValue(m, s[1..], k, v);
      assert WithValue(s, k, v)[1..] == WithValue(s[1..], k, v);
      assert Insert(m, s)[1..] == Insert(m, s[1..]);
    }
  }

  lemma {:induction false} SortWithValue(p: Payload, k: Text, v: Value)
    ensures SortByKey(WithValue(p, k, v)) == WithValue(SortByKey(p), k, v)
  {
    if p != [] {
      SortWithValue(p[1..], k, v);
      assert WithValue(p, k, v)[1..] == WithValue(p[1..], k, v);
      InsertWithValue(p[0], SortByKey(p[1..]), k, v);
    }
  }

  /** Every value under key k is v on the wire. */
  predicate IsOnWire(p: Payload, k: Text, v: Value) {
    forall m :: m in p && m.key == k ==> Wire(m.value) == Wire(v)
  }

  lemma IsOnWirePeel(p: Payload, k: Text, v: Value)
    requires p != []
    ensures IsOnWire(p, k, v) <==> (p[0].key == k ==> Wire(p[0].value) == Wire(v)) && IsOnWire(p[1..], k, v)
  {
    assert p == [p[0]] + p[1..];
    assert forall m :: m in p <==> m == p[0] || m in p[1..];
  }

  lemma {:induction false} WireWithValue(p: Payload, k: Text, v: Value)
    ensures WireMembers(WithValue(p, k, v)) == WireMembers(p) <==> IsOnWire(p, k, v)
  {
    if p != [] {
      WireWithValue(p[1..], k, v);
      IsOnWirePeel(p, k, v);
      var q := WithValue(p, k, v);
      assert q[1..] == WithValue(p[1..], k, v);
      var a, b := WireMembers(p), WireMembers(q);
      assert a[0] == WireMember(p[0]) && b[0] == WireMember(q[0]);
      assert a[1..] == WireMembers(p[1..]) && b[1..] == WireMembers(q[1..]);
      assert a == b <==> a[0] == b[0] && a[1..] == b[1..] by {
        assert a == [a[0]] + a[1..] && b == [b[0]] + b[1..];
      }
      assert a[0] == b[0] <==> (p[0].key == k ==> Wire(p[0].value) == Wire(v));
    }
  }

  /**
   Replacing the value of the field "signature" never changes the bytes; replacing that of any
   other field changes them exactly when the two values differ on the wire.
   */
  lemma ValueShows(p: Payload, i: nat, v: Value)
    requires DistinctKeys(p) && i < |p|
    ensures Canonicalize(p[i := Member(p[i].key, v)]) == Canonicalize(p) <==>
              p[i].key == Ascii("signature") || Wire(v) == Wire(p[i].value)
  {
    if p[i].key == Ascii("signature") {
      SignatureIgnored(p, i, v);
    } else {
      SignedValueShows(p, i, v);
    }
  }

  lemma SignatureIgnored(p: Payload, i: nat, v: Value)
    requires DistinctKeys(p) && i < |p| && p[i].key == SIGNATURE
    ensures Canonicalize(p[i := Member(p[i].key, v)]) == Canonicalize(p)
  {
    var q := p[i := Member(p[i].key, v)];
    forall m: Member<Text> | m.key != SIGNATURE ensures m in p <==> m in q {
      if m in p {
        var j :| 0 <= j < |p| && p[j] == m;
        assert q[j] == m;
      }
      if m in q {
        var j :| 0 <= j < |q| && q[j] == m;
        assert p[j] == m;
      }
    }
    UnsignedMembers(p);
    UnsignedMembers(q);
    FieldsAreMembers(p, q);
    CanonicalDeterministic(p, q);
  }

  lemma SignedValueShows(p: Payload, i: nat, v: Value)
    requires DistinctKeys(p) && i < |p| && p[i].key != SIGNATURE
    ensures Canonicalize(p[i := Member(p[i].key, v)]) == Canonicalize(p) <==> Wire(v) == Wire(p[i].value)
  {
    var k := p[i].key;
    var q := WithValue(p, k, v);
    WithValueAt(p, k, v);
    assert q == p[i := Member(k, v)];
    assert DistinctKeys(q);
    UnsignedWithValue(p, k, v);
    SortWithValue(Unsigned(p), k, v);
    WireWithValue(SortByKey(Unsigned(p)), k, v);
    UnsignedMembers(p);
    SortSorts(Unsigned(p));
    CanonicalFaithful(p, q);
    assert p[i] in p && p[i] in SortByKey(Unsigned(p));
    assert forall m :: m in p && m.key == k ==> m == p[i];
  }

  lemma {:induction false} MembersEncodedOnly(p: Payload)
    requires MembersPairFree(p)
    ensures WellEncoded(p)
  {
    if p != [] {
      MembersEncodedOnly(p[1..]);
      assert p == [p[0]] + p[1..];
    }
  }

  lemma ReorderedEncoded(a: Payload, b: Payload)
    requires MembersPairFree(a) && multiset(a) == multiset(b)
    ensures MembersPairFree(b)
  {
    MembersEncodedOnly(a);
    forall n | n in b ensures MemberPairFree(n) {
      assert n in multiset(a);
    }
    MembersEncoded(b);
  }

  /**
   Only top-level keys are sorted.  Listing the members of an object under a signed field in
   another order changes the bytes exactly when the lists differ on the wire; and they do, if
   the object's texts are free of split surrogate pairs.
   */
  lemma NestedOrderShows(p: Payload, i: nat, members: Payload)
    requires DistinctKeys(p) && i < |p| && p[i].key != SIGNATURE && p[i].value.Obj?
    requires multiset(members) == multiset(p[i].value.members) && members != p[i].value.members
    ensures var same := Canonicalize(p[i := Member(p[i].key, Obj(members))]) == Canonicalize(p);
            && (same <==> WireMembers(members) == WireMembers(p[i].value.members))
            && (MembersPairFree(p[i].value.members) ==> !same)
  {
    SignedValueShows(p, i, Obj(members));
    if MembersPairFree(p[i].value.members) && WireMembers(members) == WireMembers(p[i].value.members) {
      ReorderedEncoded(p[i].value.members, members);
      WireMembersInjective(members, p[i].value.members);
    }
  }

  // ---- Verification -----------------------------------------------------------------

  datatype Status = Active | GracePeriod | Expired | Tampered | UntrustedKey | Unlicensed

  // Raised: an exception that the function does not catch (an unhashable key id).
  datatype Outcome = Reported(status: Status) | Raised

  /**
   What verification takes from its surroundings: the keyring passed in, if any, and the
   built-in one, the Ed25519 check of (public key, signature, bytes), false also when a part
   does not decode, and the reading of a date, None when it does not parse.
   */
  datatype Verifier = Verifier(
    given: Option<map<Text, string>>,
    trusted: map<Text, string>,
    check: (string, Value, string) -> bool,
    parseDate: Value -> Option<int>)

  /** `keyring or TRUSTED_KEYRING`: an empty keyring is replaced as well. */
  function ActiveKeyring(v: Verifier): map<Text, string> {
    if v.given.None? || v.given.value == map[] then v.trusted else v.given.value
  }

  const REQUIRED: seq<string> := [
    "schema", "product", "license_id", "instance_id", "activation_id", "model_repo",
    "model_revision", "key_id", "expires_at", "grace_until", "signature"]

  predicate Complete(p: Payload) {
    forall i :: 0 <= i < |REQUIRED| ==> Get(p, Ascii(REQUIRED[i])).Some?
  }

  function Field(p: Payload, name: string): Value {
    var v := Get(p, Ascii(name));
    if v.Some? then v.value else Null
  }

  /** The part of the verdict that does not look at the clock. */
  function Authenticate(v: Verifier, p: Payload): Result<(int, int), Outcome> {
    if !Complete(p) then Err(Reported(Tampered))
    else
      var keyId := Field(p, "key_id");
      if keyId.Arr? || keyId.Obj? then Err(Raised)
      else if !keyId.Str? || keyId.s !in ActiveKeyring(v) then Err(Reported(UntrustedKey))
      else if !v.check(ActiveKeyring(v)[keyId.s], Field(p, "signature"), Canonicalize(p)) then Err(Reported(Tampered))
      else
        var expires, grace := v.parseDate(Field(p, "expires_at")), v.parseDate(Field(p, "grace_until"));
        if expires.None? || grace.None? then Err(Reported(Tampered))
        else Ok((expires.value, grace.value))
  }

  function Verify(v: Verifier, p: Payload, now: int): Outcome {
    match Authenticate(v, p)
    case Err(o) => o
    case Ok((expiresAt, graceUntil)) =>
      if now <= expiresAt then Reported(Active)
      else if expiresAt < now <= graceUntil then Reported(GracePeriod)
      else Reported(Expired)
  }

  // ---- What each report means -------------------------------------------------------

  /** The field with this name has this value. */
  predicate HasField(p: Payload, name: string, value: Value) {
    Member(Ascii(name), value) in p
  }

  ghost predicate HasKey(p: Payload, name: string) {
    exists value :: HasField(p, name, value)
  }

  /** One of the eleven fields. */
  predicate IsRequired(name: string) {
    || name == "schema" || name == "product" || name == "license_id" || name == "instance_id"
    || name == "activation_id" || name == "model_repo" || name == "model_revision" || name == "key_id"
    || name == "expires_at" || name == "grace_until" || name == "signature"
  }

  /** All of them are there. */
  ghost predicate HasAllFields(p: Payload) {
    forall name :: IsRequired(name) ==> HasKey(p, name)
  }

  /** The payload names this key, and the keyring passed in or, if that is none or empty, the built-in one has it. */
  ghost predicate TrustedKey(v: Verifier, p: Payload, id: Text, key: string) {
    && HasField(p, "key_id", Str(id))
    && if v.given.Some? && |v.given.value| > 0 then id in v.given.value && v.given.value[id] == key
       else id in v.trusted && v.trusted[id] == key
  }

  /** The payload carries a signature that checks against its canonical bytes. */
  ghost predicate Signed(v: Verifier, p: Payload, key: string) {
    exists signature :: HasField(p, "signature", signature) && v.check(key, signature, Canonicalize(p))
  }

  ghost predicate HasDate(v: Verifier, p: Payload, name: string, at: int) {
    exists value :: HasField(p, name, value) && v.parseDate(value) == Some(at)
  }

  /** A complete payload signed under a trusted key, with these two dates. */
  ghost predicate Licensed(v: Verifier, p: Payload, expires: int, grace: int) {
    && HasAllFields(p)
    && (exists id, key :: TrustedKey(v, p, id, key) && Signed(v, p, key))
    && HasDate(v, p, "expires_at", expires) && HasDate(v, p, "grace_until", grace)
  }

  lemma FieldMeans(p: Payload, name: string, value: Value)
    requires DistinctKeys(p)
    ensures HasField(p, name, value) <==> Get(p, Ascii(name)) == Some(value)
    ensures HasKey(p, name) <==> Get(p, Ascii(name)).Some?
  {
    GetIsMember(p, Ascii(name));
    if Get(p, Ascii(name)).Some? {
      assert HasField(p, name, Get(p, Ascii(name)).value);
    }
  }

  lemma CompleteMeans(p: Payload)
    requires DistinctKeys(p)
    ensures Complete(p) <==> HasAllFields(p)
  {
    forall name ensures HasKey(p, name) <==> Get(p, Ascii(name)).Some? {
      FieldMeans(p, name, Null);
    }
    forall name ensures name in REQUIRED <==> IsRequired(name) {
      RequiredName(name);
    }
    if Complete(p) {
      forall name | IsRequired(name) ensures HasKey(p, name) {
        CompleteHas(p, name);
      }
    } else {
      var i :| 0 <= i < |REQUIRED| && Get(p, Ascii(REQUIRED[i])).None?;
      assert IsRequired(REQUIRED[i]);
    }
  }

  lemma RequiredName(name: string)
    ensures name in REQUIRED <==> IsRequired(name)
  {
    var names := ["schema", "product", "license_id", "instance_id", "activation_id", "model_repo",
                  "model_revision", "key_id", "expires_at", "grace_until", "signature"];
    assert name in names <==> IsRequired(name);
  }

  /** A field that is there has one value. */
  lemma FieldIs(p: Payload, name: string)
    requires DistinctKeys(p) && Get(p, Ascii(name)).Some?
    ensures forall value :: HasField(p, name, value) <==> value == Field(p, name)
  {
    forall value ensures HasField(p, name, value) <==> value == Field(p, name) {
      FieldMeans(p, name, value);
    }
  }

  lemma CompleteHas(p: Payload, name: string)
    requires Complete(p) && name in REQUIRED
    ensures Get(p, Ascii(name)).Some?
  {
    var i :| 0 <= i < |REQUIRED| && REQUIRED[i] == name;
  }

  lemma KeyIs(v: Verifier, p: Payload, id: Text, key: string)
    requires DistinctKeys(p) && Get(p, Ascii("key_id")).Some?
    ensures TrustedKey(v, p, id, key) <==>
              Field(p, "key_id") == Str(id) && id in ActiveKeyring(v) && ActiveKeyring(v)[id] == key
  {
    FieldIs(p, "key_id");
    if v.given.Some? {
      assert |v.given.value| == 0 <==> v.given.value == map[];
    }
  }

  lemma SignatureIs(v: Verifier, p: Payload, key: string)
    requires DistinctKeys(p) && Get(p, Ascii("signature")).Some?
    ensures Signed(v, p, key) <==> v.check(key, Field(p, "signature"), Canonicalize(p))
  {
    FieldIs(p, "signature");
  }

  lemma DateIs(v: Verifier, p: Payload, name: string, at: int)
    requires DistinctKeys(p) && Get(p, Ascii(name)).Some?
    ensures HasDate(v, p, name, at) <==> v.parseDate(Field(p, name)) == Some(at)
  {
    FieldIs(p, name);
  }

  /** Whether some trusted key is named, and whether it signs. */
  lemma TrustIs(v: Verifier, p: Payload)
    requires DistinctKeys(p) && Get(p, Ascii("key_id")).Some? && Get(p, Ascii("signature")).Some?
    ensures var keyId := Field(p, "key_id");
            var known := keyId.Str? && keyId.s in ActiveKeyring(v);
            && ((exists id, key :: TrustedKey(v, p, id, key)) <==> known)
            && ((exists id, key :: TrustedKey(v, p, id, key) && Signed(v, p, key)) <==>
                  known && v.check(ActiveKeyring(v)[keyId.s], Field(p, "signature"), Canonicalize(p)))
  {
    var keyId := Field(p, "key_id");
    forall id, key
      ensures TrustedKey(v, p, id, key) <==>
                keyId == Str(id) && id in ActiveKeyring(v) && ActiveKeyring(v)[id] == key
    {
      KeyIs(v, p, id, key);
    }
    forall key ensures Signed(v, p, key) <==> v.check(key, Field(p, "signature"), Canonicalize(p)) {
      SignatureIs(v, p, key);
    }
    if keyId.Str? && keyId.s in ActiveKeyring(v) {
      assert TrustedKey(v, p, keyId.s, ActiveKeyring(v)[keyId.s]);
    }
  }

  /** What authentication reads, in terms of the fields. */
  lemma AuthenticMeans(v: Verifier, p: Payload, expires: int, grace: int)
    requires DistinctKeys(p)
    ensures Authenticate(v, p) == Ok((expires, grace)) <==> Licensed(v, p, expires, grace)
  {
    CompleteMeans(p);
    if Complete(p) {
      CompleteHas(p, "key_id");
      CompleteHas(p, "signature");
      CompleteHas(p, "expires_at");
      CompleteHas(p, "grace_until");
      TrustIs(v, p);
      DateIs(v, p, "expires_at", expires);
      DateIs(v, p, "grace_until", grace);
    }
  }

  /**
   The licensed reports: a payload that is complete, signed under a trusted key and dated is
   active up to and including its expiry, in grace after that up to and including its grace
   date, and expired after both; no other payload is reported as any of the three.
   */
  lemma LicensedReports(v: Verifier, p: Payload, now: int)
    requires DistinctKeys(p)
    ensures Verify(v, p, now) == Reported(Active) <==>
              exists expires, grace :: Licensed(v, p, expires, grace) && now <= expires
    ensures Verify(v, p, now) == Reported(GracePeriod) <==>
              exists expires, grace :: Licensed(v, p, expires, grace) && expires < now <= grace
    ensures Verify(v, p, now) == Reported(Expired) <==>
              exists expires, grace :: Licensed(v, p, expires, grace) && expires < now && grace < now
  {
    var a := Authenticate(v, p);
    forall expires, grace ensures a == Ok((expires, grace)) <==> Licensed(v, p, expires, grace) {
      AuthenticMeans(v, p, expires, grace);
    }
    if a.Ok? {
      assert Licensed(v, p, a.value.0, a.value.1);
    }
  }

  /** The key id cannot be looked up: it is a list or an object. */
  ghost predicate UnhashableKey(p: Payload) {
    exists value :: HasField(p, "key_id", value) && (value.Arr? || value.Obj?)
  }

  /**
   The other reports, for any time: an unhashable key id of a complete payload raises; a
   complete payload with any other key id that is not trusted is of an untrusted key; and
   tampered is a payload that lacks a field, or whose trusted key does not verify it, or one
   of whose dates does not parse.
   */
  lemma UnlicensedReports(v: Verifier, p: Payload, now: int)
    requires DistinctKeys(p)
    ensures Verify(v, p, now) == Raised <==> HasAllFields(p) && UnhashableKey(p)
    ensures Verify(v, p, now) == Reported(UntrustedKey) <==>
              HasAllFields(p) && !UnhashableKey(p) && !exists id, key :: TrustedKey(v, p, id, key)
    ensures Verify(v, p, now) == Reported(Tampered) <==>
              || !HasAllFields(p)
              || ((exists id, key :: TrustedKey(v, p, id, key)) && !exists e, g :: Licensed(v, p, e, g))
    ensures Verify(v, p, now) != Reported(Unlicensed)
  {
    CompleteMeans(p);
    forall e, g ensures Authenticate(v, p) == Ok((e, g)) <==> Licensed(v, p, e, g) {
      AuthenticMeans(v, p, e, g);
    }
    var a := Authenticate(v, p);
    if Complete(p) {
      CompleteHas(p, "key_id");
      CompleteHas(p, "signature");
      TrustIs(v, p);
      FieldIs(p, "key_id");
      assert a.Ok? ==> Licensed(v, p, a.value.0, a.value.1);
    }
  }

  function Age(s: Status): int {
    match s
    case Active => 0
    case GracePeriod => 1
    case Expired => 2
    case _ => 3
  }

  /** As time passes a valid token only ages; every other verdict is independent of the clock. */
  lemma VerdictsAge(v: Verifier, p: Payload, early: int, late: int)
    requires early <= late
    ensures var a, b := Verify(v, p, early), Verify(v, p, late);
            && (a.Raised? || Age(a.status) == 3 <==> b.Raised? || Age(b.status) == 3)
            && (a.Raised? || Age(a.status) == 3 ==> a == b)
            && (a.Reported? && b.Reported? ==> Age(a.status) <= Age(b.status))
  {
  }

  lemma GetOfFields(p: Payload, q: Payload, key: Text)
    requires DistinctKeys(p) && DistinctKeys(q) && SameMembers(p, q)
    ensures Get(p, key) == Get(q, key)
  {
    GetIsMember(p, key);
    GetIsMember(q, key);
  }

  lemma CompleteIgnoresOrder(p: Payload, q: Payload)
    requires DistinctKeys(p) && DistinctKeys(q) && SameMembers(p, q)
    ensures Complete(p) == Complete(q)
  {
    forall i | 0 <= i < |REQUIRED| ensures Get(p, Ascii(REQUIRED[i])) == Get(q, Ascii(REQUIRED[i])) {
      GetOfFields(p, q, Ascii(REQUIRED[i]));
    }
  }

  lemma FieldIgnoresOrder(p: Payload, q: Payload, name: string)
    requires DistinctKeys(p) && DistinctKeys(q) && SameMembers(p, q)
    ensures Field(p, name) == Field(q, name)
  {
    GetOfFields(p, q, Ascii(name));
  }

  lemma CanonicalIgnoresOrder(p: Payload, q: Payload)
    requires DistinctKeys(p) && DistinctKeys(q) && SameMembers(p, q)
    ensures Canonicalize(p) == Canonicalize(q)
  {
    UnsignedMembers(p);
    UnsignedMembers(q);
    FieldsAreMembers(p, q);
    CanonicalDeterministic(p, q);
  }

  /** Verification reads the fields, never their order. */
  lemma VerifyIgnoresOrder(v: Verifier, p: Payload, q: Payload, now: int)
    requires DistinctKeys(p) && DistinctKeys(q) && SameMembers(p, q)
    ensures Verify(v, p, now) == Verify(v, q, now)
  {
    CanonicalIgnoresOrder(p, q);
    CompleteIgnoresOrder(p, q);
    forall name ensures Field(p, name) == Field(q, name) {
      FieldIgnoresOrder(p, q, name);
    }
  }

  /**
   If under the keys in force the check accepts nothing but the canonical bytes of issued
   payloads, then a token reported as active, in grace or expired has the canonical bytes of
   one of them, and exactly its signed fields when both are free of split surrogate pairs.
   */
  lemma VerifiedWasIssued(v: Verifier, issued: set<Payload>, p: Payload, now: int) returns (q: Payload)
    requires DistinctKeys(p) && forall i :: i in issued ==> DistinctKeys(i)
    requires forall id, s, bytes :: id in ActiveKeyring(v) && v.check(ActiveKeyring(v)[id], s, bytes) ==>
               exists i :: i in issued && bytes == Canonicalize(i)
    requires Verify(v, p, now).Reported? && Age(Verify(v, p, now).status) < 3
    ensures q in issued && Canonicalize(q) == Canonicalize(p)
    ensures WellEncoded(p) && WellEncoded(q) ==> SignedFields(q) == SignedFields(p)
  {
    assert v.check(ActiveKeyring(v)[Field(p, "key_id").s], Field(p, "signature"), Canonicalize(p));
    q :| q in issued && Canonicalize(p) == Canonicalize(q);
    CanonicalFaithful(p, q);
  }
}
