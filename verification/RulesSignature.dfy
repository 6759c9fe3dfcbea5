/**
 The signature envelope of the compiled rules: what is signed, and when a rules document
 with an envelope is accepted.
 */
module RulesSignature {
  import opened Prelude

  datatype Envelope = Envelope(issuer: string, keyId: string, issuedAt: string, expiresAt: string, signature: string)

  // The fields under the signature.
  datatype Signed = Signed(rulesText: string, issuer: string, keyId: string, issuedAt: string, expiresAt: string)

  function Fields(rulesText: string, e: Envelope): Signed {
    Signed(rulesText, e.issuer, e.keyId, e.issuedAt, e.expiresAt)
  }

  function JoinLines(parts: seq<string>): string {
    if parts == [] then ""
    else if |parts| == 1 then parts[0]
    else JoinLines(parts[..|parts| - 1]) + "\n" + parts[|parts| - 1]
  }

  function SignatureInput(f: Signed): string {
    JoinLines([f.rulesText, f.issuer, f.keyId, f.issuedAt, f.expiresAt])
  }

  // ---- When the signed text determines the fields -----------------------------------

  function Newlines(s: string): nat {
    if s == "" then 0 else (if s[0] == '\n' then 1 else 0) + Newlines(s[1..])
  }

  lemma {:induction false} NewlinesConcat(a: string, b: string)
    ensures Newlines(a + b) == Newlines(a) + Newlines(b)
  {
    if a == "" {
      assert a + b == b;
    } else {
      assert (a + b)[1..] == a[1..] + b;
      NewlinesConcat(a[1..], b);
    }
  }

  /** Two ways to cut one text at a newline agree when the last parts have equally many newlines. */
  lemma LastLineCancel(a: string, x: string, b: string, y: string)
    requires a + "\n" + x == b + "\n" + y && Newlines(x) == Newlines(y)
    ensures a == b && x == y
  {
    var whole := a + "\n" + x;
    if |x| < |y| {
      LongerLastLine(a, x, b, y);
    } else if |y| < |x| {
      LongerLastLine(b, y, a, x);
    } else {
      assert x == whole[|whole| - |x|..] && y == whole[|whole| - |y|..];
      assert a == whole[..|a|] && b == whole[..|b|];
    }
  }

  lemma LongerLastLine(a: string, x: string, b: string, y: string)
    requires a + "\n" + x == b + "\n" + y && |x| < |y|
    ensures Newlines(x) < Newlines(y)
  {
    var whole := a + "\n" + x;
    var middle := y[..|y| - |x| - 1];
    assert y == whole[|whole| - |y|..];
    assert y == middle + ("\n" + x);
    NewlinesConcat(middle, "\n" + x);
    NewlinesConcat("\n", x);
    assert Newlines("\n") == 1 by {
      assert "\n"[1..] == "";
    }
  }

  lemma JoinPeel(parts: seq<string>, last: string)
    requires parts != []
    ensures JoinLines(parts + [last]) == JoinLines(parts) + "\n" + last
  {
    assert (parts + [last])[..|parts|] == parts;
  }

  /** The newline counts of the four fields after the rules text. */
  function Shape(f: Signed): (nat, nat, nat, nat) {
    (Newlines(f.issuer), Newlines(f.keyId), Newlines(f.issuedAt), Newlines(f.expiresAt))
  }

  lemma InputPeels(f: Signed)
    ensures SignatureInput(f)
         == (((f.rulesText + "\n" + f.issuer) + "\n" + f.keyId) + "\n" + f.issuedAt) + "\n" + f.expiresAt
  {
    assert [f.rulesText, f.issuer, f.keyId, f.issuedAt, f.expiresAt]
        == [f.rulesText, f.issuer, f.keyId, f.issuedAt] + [f.expiresAt];
    JoinPeel([f.rulesText, f.issuer, f.keyId, f.issuedAt], f.expiresAt);
    assert [f.rulesText, f.issuer, f.keyId, f.issuedAt] == [f.rulesText, f.issuer, f.keyId] + [f.issuedAt];
    JoinPeel([f.rulesText, f.issuer, f.keyId], f.issuedAt);
    assert [f.rulesText, f.issuer, f.keyId] == [f.rulesText, f.issuer] + [f.keyId];
    JoinPeel([f.rulesText, f.issuer], f.keyId);
    assert [f.rulesText, f.issuer] == [f.rulesText] + [f.issuer];
    JoinPeel([f.rulesText], f.issuer);
  }

  /**
   Two field tuples with one signed text are equal exactly when their issuers, key ids and
   dates have the same newline counts; the rules text may contain any number of newlines.
   */
  lemma SignatureInputInjective(f: Signed, g: Signed)
    requires SignatureInput(f) == SignatureInput(g)
    ensures f == g <==> Shape(f) == Shape(g)
  {
    if Shape(f) == Shape(g) {
      InputPeels(f);
      InputPeels(g);
      LastLineCancel(((f.rulesText + "\n" + f.issuer) + "\n" + f.keyId) + "\n" + f.issuedAt, f.expiresAt,
                     ((g.rulesText + "\n" + g.issuer) + "\n" + g.keyId) + "\n" + g.issuedAt, g.expiresAt);
      LastLineCancel((f.rulesText + "\n" + f.issuer) + "\n" + f.keyId, f.issuedAt,
                     (g.rulesText + "\n" + g.issuer) + "\n" + g.keyId, g.issuedAt);
      LastLineCancel(f.rulesText + "\n" + f.issuer, f.keyId, g.rulesText + "\n" + g.issuer, g.keyId);
      LastLineCancel(f.rulesText, f.issuer, g.rulesText, g.issuer);
    }
  }

  /** A newline in the issuer can be moved into the rules text without changing what is signed. */
  lemma NewlineInIssuerCollides(rulesText: string, a: string, b: string,
                                keyId: string, issuedAt: string, expiresAt: string)
    ensures SignatureInput(Signed(rulesText, a + "\n" + b, keyId, issuedAt, expiresAt))
         == SignatureInput(Signed(rulesText + "\n" + a, b, keyId, issuedAt, expiresAt))
    ensures Signed(rulesText, a + "\n" + b, keyId, issuedAt, expiresAt)
         != Signed(rulesText + "\n" + a, b, keyId, issuedAt, expiresAt)
  {
    InputPeels(Signed(rulesText, a + "\n" + b, keyId, issuedAt, expiresAt));
    InputPeels(Signed(rulesText + "\n" + a, b, keyId, issuedAt, expiresAt));
    assert rulesText + "\n" + (a + "\n" + b) == (rulesText + "\n" + a) + "\n" + b;
    assert |rulesText + "\n" + a| > |rulesText|;
  }

  // ---- Acceptance -------------------------------------------------------------------

  datatype EnvelopeRead = BadEncoding | BadJson | Read(envelope: Envelope)

  /** Configuration and library functions that validation depends on. */
  datatype Verifier = Verifier(
    required: bool,
    trusted: set<string>,
    readHeader: string -> EnvelopeRead,
    parseTime: string -> Option<int>,
    secretFor: string -> string,
    mac: (string, string) -> string)

  datatype Verdict = Accepted | Rejected(reason: string)

  function Validate(v: Verifier, now: int, rulesText: string, header: string): Verdict {
    if header == "" then
      if v.required then Rejected("missing signature envelope") else Accepted
    else
      match v.readHeader(header)
      case BadEncoding => Rejected("invalid signature header encoding")
      case BadJson => Rejected("invalid signature envelope json")
      case Read(env) =>
        if env.issuer !in v.trusted then Rejected("untrusted issuer")
        else if env.expiresAt != "" && v.parseTime(env.expiresAt).Some? && now > v.parseTime(env.expiresAt).value then
          Rejected("signature expired")
        else if v.secretFor(env.keyId) == "" then Rejected("missing verifier key")
        else if v.mac(v.secretFor(env.keyId), SignatureInput(Fields(rulesText, env))) != env.signature then
          Rejected("signature mismatch")
        else Accepted
  }

  /** The envelope names an issuer, a date and a key in order, and its signature is that of the text. */
  predicate InOrder(v: Verifier, now: int, text: string, env: Envelope) {
    && env.issuer in v.trusted
    && (env.expiresAt == "" || v.parseTime(env.expiresAt).None? || now <= v.parseTime(env.expiresAt).value)
    && v.secretFor(env.keyId) != ""
    && v.mac(v.secretFor(env.keyId), text) == env.signature
  }

  /**
   Acceptance: without a header when none is required, and otherwise exactly with an
   envelope in order over the five fields, each on its own line.  A verdict of rejection
   says which check failed first.
   */
  lemma AcceptedIff(v: Verifier, now: int, rulesText: string, header: string)
    ensures Validate(v, now, rulesText, header) == Accepted <==>
              if header == "" then !v.required
              else
                && v.readHeader(header).Read?
                && var env := v.readHeader(header).envelope;
                   var text := (((rulesText + "\n" + env.issuer) + "\n" + env.keyId) + "\n" + env.issuedAt)
                               + "\n" + env.expiresAt;
                   InOrder(v, now, text, env)
    ensures header == "" && v.required ==>
              Validate(v, now, rulesText, header) == Rejected("missing signature envelope")
    ensures header != "" && v.readHeader(header).Read? ==>
              var env, verdict := v.readHeader(header).envelope, Validate(v, now, rulesText, header);
              && (env.issuer !in v.trusted <==> verdict == Rejected("untrusted issuer"))
              && (verdict == Rejected("signature expired") ==>
                    env.issuer in v.trusted && v.parseTime(env.expiresAt).Some?
                    && now > v.parseTime(env.expiresAt).value)
              && (verdict == Rejected("missing verifier key") ==> v.secretFor(env.keyId) == "")
  {
    if header != "" && v.readHeader(header).Read? {
      InputPeels(Fields(rulesText, v.readHeader(header).envelope));
    }
  }

  /** The signature of the envelope is valid, under its key, for the signed texts of issued tuples only. */
  ghost predicate SignsOnlyIssued(v: Verifier, env: Envelope, issued: set<Signed>) {
    forall text {:trigger v.mac(v.secretFor(env.keyId), text)} ::
      v.mac(v.secretFor(env.keyId), text) == env.signature ==> exists f :: f in issued && text == SignatureInput(f)
  }

  predicate OneShape(issued: set<Signed>, shape: (nat, nat, nat, nat)) {
    forall f :: f in issued ==> Shape(f) == shape
  }

  /**
   Rules accepted under an envelope come from a trusted issuer and have the signed text of
   an issued tuple.  They carry the very fields of an issued tuple exactly when one with
   that text also has the presented newline counts; so if all issued tuples have one shape
   (no newlines, say), exactly when the presented fields have it.
   */
  lemma AcceptedWasIssued(v: Verifier, now: int, rulesText: string, header: string, env: Envelope, issued: set<Signed>)
    requires Validate(v, now, rulesText, header) == Accepted && header != "" && v.readHeader(header) == Read(env)
    requires SignsOnlyIssued(v, env, issued)
    ensures env.issuer in v.trusted
    ensures var g := Fields(rulesText, env);
            && (exists f :: f in issued && SignatureInput(f) == SignatureInput(g))
            && (g in issued <==>
                  exists f :: f in issued && SignatureInput(f) == SignatureInput(g) && Shape(f) == Shape(g))
            && (forall shape :: OneShape(issued, shape) ==> (g in issued <==> Shape(g) == shape))
  {
    var g := Fields(rulesText, env);
    assert v.mac(v.secretFor(env.keyId), SignatureInput(g)) == env.signature;
    forall f | f in issued && SignatureInput(f) == SignatureInput(g) ensures f == g <==> Shape(f) == Shape(g) {
      SignatureInputInjective(f, g);
    }
  }

  /**
   Fields that were never issued can be accepted: the tuple issued has a newline in its
   issuer, the one presented has that newline in its rules text instead.
   */
  lemma AcceptedThoughNotIssued(rulesText: string, a: string, b: string, keyId: string, issuedAt: string, now: int)
    returns (v: Verifier, header: string, env: Envelope, issued: set<Signed>)
    ensures header != "" && v.readHeader(header) == Read(env)
    ensures SignsOnlyIssued(v, env, issued)
    ensures Validate(v, now, rulesText + "\n" + a, header) == Accepted
    ensures Fields(rulesText + "\n" + a, env) !in issued
  {
    var f := Signed(rulesText, a + "\n" + b, keyId, issuedAt, "");
    NewlineInIssuerCollides(rulesText, a, b, keyId, issuedAt, "");
    var signed := SignatureInput(f);
    header, env, issued := "h", Envelope(b, keyId, issuedAt, "", "s"), {f};
    var e := env;
    v := Verifier(true, {b}, _ => Read(e), _ => None, _ => "k", (_, text) => if text == signed then "s" else "");
  }

  /** The verdict changes with time only by expiring, and only a readable expiry date expires. */
  lemma OnlyExpiryDependsOnTime(v: Verifier, early: int, late: int, rulesText: string, header: string)
    requires early <= late
    ensures var a, b := Validate(v, early, rulesText, header), Validate(v, late, rulesText, header);
            a != b ==>
              && b == Rejected("signature expired")
              && v.readHeader(header).Read?
              && v.parseTime(v.readHeader(header).envelope.expiresAt).Some?
  {
  }
}
