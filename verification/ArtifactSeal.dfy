/** The two sealed documents that bind each other by hash, and the verification of a sealed directory. */
module ArtifactSeal {
  import opened Common
  import opened Dictionaries
  import opened Json
  import opened JsonRoundTrip
  import opened TextOrder
  import opened ArtifactJson
  import opened ArtifactBytes
  import opened ArtifactPayload

  const MAX_PRIVATE_BYTES: nat := 10 * 1024 * 1024
  const MAX_PUBLIC_BYTES: nat := 64 * 1024

  const SCHEMA: Text := Ascii("schema")
  const RUN_ID: Text := Ascii("run_id")
  const CAPTURED_AT: Text := Ascii("captured_at")
  const MODE: Text := Ascii("mode")
  const PRIVATE_HASH: Text := Ascii("private_evidence_sha256")
  const PUBLIC_HASH: Text := Ascii("public_summary_sha256")
  const FIXTURE_SCHEMA: Text := Ascii("alphadecay.provider-rehearsal.fixture.v6")
  const REHEARSAL_SCHEMA: Text := Ascii("alphadecay.provider-rehearsal.operator.v6")

  /** The hexadecimal digest of a text. */
  type Hash = Text -> Text

  /** `repr` writes every float as a literal that denotes it. */
  ghost predicate FloatsOk(fl: Floats) {
    forall f :: IsRepr(fl.repr, fl.repr(f))
  }

  // ---- Dictionaries ----

  lemma {:induction false} PutPython(fl: Floats, ms: Members, key: Text, value: Json)
    requires MembersArePython(fl, ms) && IsPython(fl, value)
    ensures MembersArePython(fl, Put(ms, key, value))
  {
    if ms.Member? && ms.key != key {
      PutPython(fl, ms.rest, key, value);
    }
  }

  lemma {:induction false} RemovePython(fl: Floats, ms: Members, key: Text)
    requires MembersArePython(fl, ms)
    ensures MembersArePython(fl, Remove(ms, key))
  {
    if ms.Member? && ms.key != key {
      RemovePython(fl, ms.rest, key);
    }
  }

  /** Dictionaries with the same entries freeze to the same object. */
  lemma SameDictionaryFreezesAlike(a: Members, b: Members)
    requires DistinctKeys(a) && DistinctKeys(b) && SameDictionary(a, b)
    ensures Frozen(Obj(a)) == Frozen(Obj(b))
  {
    var fa, fb := FrozenMembers(a), FrozenMembers(b);
    FrozenMembersHas(a, []);
    FrozenMembersHas(b, []);
    forall q
      ensures Has(Sort(fa), q) <==> Has(Sort(fb), q)
      ensures Has(Sort(fa), q) && Has(Sort(fb), q) ==> Get(Sort(fa), q) == Get(Sort(fb), q)
    {
      SortKeepsLookup(fa, q);
      SortKeepsLookup(fb, q);
      FrozenMembersHas(a, q);
      FrozenMembersHas(b, q);
      assert Lookup(a, q) == Lookup(b, q);
    }
    SortAscends(fa);
    SortAscends(fb);
    AscendingUnique(Sort(fa), Sort(fb));
  }

  // ---- Sealing ----

  datatype Header = Header(schema: Text, runId: Text, capturedAt: Text, mode: Text)

  function WithHeader(ms: Members, h: Header): Members {
    Put(Put(Put(Put(ms, SCHEMA, Str(h.schema)), RUN_ID, Str(h.runId)), CAPTURED_AT, Str(h.capturedAt)), MODE, Str(h.mode))
  }

  function PublicPayload(hash: Hash, core: Members, public: Members, h: Header): Members {
    Put(WithHeader(public, h), PRIVATE_HASH, Str(hash(Payload(Obj(core)))))
  }

  function PrivatePayload(hash: Hash, core: Members, public: Members, h: Header): Members {
    Put(core, PUBLIC_HASH, Str(hash(Payload(Obj(PublicPayload(hash, core, public, h))))))
  }

  datatype Sealed = Sealed(private: Text, public: Text)

  /** The documents `_seal` writes, when all three payloads are accepted. */
  method Documents(fl: Floats, hash: Hash, private: Members, public: Members, h: Header) returns (r: Result<Sealed, Failure>)
    ensures var core := WithHeader(private, h);
            r.Ok? <==> && Accepted(fl, Obj(core), MAX_PRIVATE_BYTES)
                       && Accepted(fl, Obj(PublicPayload(hash, core, public, h)), MAX_PUBLIC_BYTES)
                       && Accepted(fl, Obj(PrivatePayload(hash, core, public, h)), MAX_PRIVATE_BYTES)
    ensures var core := WithHeader(private, h);
            r.Ok? ==> r.value == Sealed(Payload(Obj(PrivatePayload(hash, core, public, h))),
                                        Payload(Obj(PublicPayload(hash, core, public, h))))
  {
    var core := WithHeader(private, h);
    var coreBytes := PayloadBytes(fl, Obj(core), MAX_PRIVATE_BYTES);
    if coreBytes.Err? {
      return Err(coreBytes.error);
    }
    var publicPayload := Put(WithHeader(public, h), PRIVATE_HASH, Str(hash(coreBytes.value)));
    var publicBytes := PayloadBytes(fl, Obj(publicPayload), MAX_PUBLIC_BYTES);
    if publicBytes.Err? {
      return Err(publicBytes.error);
    }
    var privatePayload := Put(core, PUBLIC_HASH, Str(hash(publicBytes.value)));
    var privateBytes := PayloadBytes(fl, Obj(privatePayload), MAX_PRIVATE_BYTES);
    if privateBytes.Err? {
      return Err(privateBytes.error);
    }
    return Ok(Sealed(privateBytes.value, publicBytes.value));
  }

  // ---- Verifying ----

  /** The public fields that the schema checks read. */
  datatype Fields = Fields(
    schema: Json,
    mode: Json,
    artifactClass: Json,
    providerRehearsal: Json,
    competitionEvidence: Json,
    paperEndpoint: Json,
    bookUnchanged: Json,
    productionFactory: Json,
    invocation: Json,
    sourceHash: Json)

  function FieldsOf(ms: Members): Fields {
    Fields(Field(ms, SCHEMA), Field(ms, MODE), Field(ms, Ascii("artifact_class")),
           Field(ms, Ascii("provider_rehearsal")), Field(ms, CLAIM_KEY),
           Field(ms, Ascii("paper_endpoint_verified")), Field(ms, Ascii("book_unchanged")),
           Field(ms, Ascii("production_factory")), Field(ms, Ascii("invocation")),
           Field(ms, Ascii("source_sha256")))
  }

  predicate IsHex64(v: Json) {
    v.Str? && |v.s| == 64 && forall i :: 0 <= i < |v.s| ==> IsDigit(v.s[i]) || 97 <= v.s[i] <= 102
  }

  function ExpectedInvocation(mode: Json): Json {
    if mode == Str(Ascii("development")) then
      Str(Ascii("python -m ops.launch.provider_rehearsal development"))
    else if mode == Str(Ascii("submission-no-trade")) then
      Str(Ascii("python -m ops.launch.provider_rehearsal submission-no-trade"))
    else Null
  }

  predicate FixtureFieldsHold(f: Fields) {
    && f.artifactClass == Str(Ascii("FIXTURE_TEST_ONLY"))
    && f.providerRehearsal == Bool(false)
    && f.competitionEvidence == Bool(false)
  }

  predicate RehearsalFieldsHold(f: Fields) {
    && f.artifactClass == Str(Ascii("PROVIDER_REHEARSAL"))
    && f.providerRehearsal == Bool(true)
    && f.competitionEvidence == Bool(false)
    && f.paperEndpoint == Bool(true)
    && f.bookUnchanged == Bool(true)
    && f.productionFactory == Str(Ascii("backend.app.runtime.build_production_agent"))
    && f.invocation == ExpectedInvocation(f.mode)
    && IsHex64(f.sourceHash)
  }

  /** What `_verify_artifact_directory` requires of the public payload for its schema. */
  predicate FieldsHold(f: Fields) {
    if f.schema == Str(FIXTURE_SCHEMA) then FixtureFieldsHold(f)
    else f.schema == Str(REHEARSAL_SCHEMA) && RehearsalFieldsHold(f)
  }

  predicate SameHeader(public: Members, core: Members) {
    && Equivalent(Field(public, SCHEMA), Field(core, SCHEMA))
    && Equivalent(Field(public, RUN_ID), Field(core, RUN_ID))
    && Equivalent(Field(public, CAPTURED_AT), Field(core, CAPTURED_AT))
    && Equivalent(Field(public, MODE), Field(core, MODE))
  }

  /** The checks made on the two parsed documents. */
  predicate Binds(fl: Floats, hash: Hash, publicText: Text, public: Members, private: Members) {
    var core := Remove(private, PUBLIC_HASH);
    && Accepted(fl, Obj(public), MAX_PUBLIC_BYTES)
    && Accepted(fl, Obj(core), MAX_PRIVATE_BYTES)
    && publicText == Payload(Obj(public))
    && Field(private, PUBLIC_HASH) == Str(hash(publicText))
    && Field(public, PRIVATE_HASH) == Str(hash(Payload(Obj(core))))
    && SameHeader(public, core)
    && FieldsHold(FieldsOf(public))
  }

  /** `_verify_artifact_directory`: the public payload, if the directory is accepted. */
  function Verified(fl: Floats, hash: Hash, sealed: Sealed): Option<Members> {
    if |sealed.public| > MAX_PUBLIC_BYTES || |sealed.private| > MAX_PRIVATE_BYTES then None
    else
      match (ParseObject(fl.repr, sealed.public), ParseObject(fl.repr, sealed.private))
      case (Some(public), Some(private)) =>
        if Binds(fl, hash, sealed.public, public, private) then Some(public) else None
      case _ => None
  }

  // ---- A sealed directory, read back ----

  /** The members that a payload parses back to. */
  function ReadBack(ms: Members): Members {
    Sort(FrozenMembers(ms))
  }

  lemma ReadBackLookup(ms: Members, q: Text)
    requires DistinctKeys(ms)
    ensures Has(ReadBack(ms), q) <==> Has(ms, q)
    ensures Field(ReadBack(ms), q) == Frozen(Field(ms, q))
    ensures DistinctKeys(ReadBack(ms))
  {
    FrozenMembersHas(ms, q);
    SortKeepsLookup(FrozenMembers(ms), q);
    SortAscends(FrozenMembers(ms));
    AscendingIsDistinct(ReadBack(ms));
  }

  lemma PayloadReadsBack(fl: Floats, ms: Members, byteLimit: nat)
    requires IsPython(fl, Obj(ms)) && Accepted(fl, Obj(ms), byteLimit)
    ensures ParseObject(fl.repr, Payload(Obj(ms))) == Some(ReadBack(ms))
    ensures Frozen(Obj(ReadBack(ms))) == Frozen(Obj(ms)) && IsPython(fl, Obj(ReadBack(ms)))
    ensures |Payload(Obj(ms))| <= byteLimit
  {
    FrozenPrintable(fl, Obj(ms), 0);
    ObjectRoundTrip(fl.repr, ReadBack(ms));
    FrozenTwice(fl, Obj(ms));
    FrozenSize(Obj(ms));
    EmitSize(Frozen(Obj(ms)), [10]);
  }

  function FrozenFields(f: Fields): Fields {
    Fields(Frozen(f.schema), Frozen(f.mode), Frozen(f.artifactClass), Frozen(f.providerRehearsal),
           Frozen(f.competitionEvidence), Frozen(f.paperEndpoint), Frozen(f.bookUnchanged),
           Frozen(f.productionFactory), Frozen(f.invocation), Frozen(f.sourceHash))
  }

  predicate IsScalar(v: Json) {
    v.Str? || v.Bool? || v.Null?
  }

  lemma FrozenIs(v: Json, scalar: Json)
    requires IsScalar(scalar)
    ensures Frozen(v) == scalar <==> v == scalar
  {
  }

  lemma InvocationIsScalar(mode: Json)
    ensures IsScalar(ExpectedInvocation(mode)) && ExpectedInvocation(Frozen(mode)) == ExpectedInvocation(mode)
  {
    FrozenIs(mode, Str(Ascii("development")));
    FrozenIs(mode, Str(Ascii("submission-no-trade")));
  }

  lemma FrozenHash(v: Json)
    ensures IsHex64(Frozen(v)) <==> IsHex64(v)
  {
  }

  lemma ScalarRehearsalFields(f: Fields)
    ensures RehearsalFieldsHold(FrozenFields(f)) <==> RehearsalFieldsHold(f)
  {
    FrozenIs(f.artifactClass, Str(Ascii("PROVIDER_REHEARSAL")));
    FrozenIs(f.providerRehearsal, Bool(true));
    FrozenIs(f.competitionEvidence, Bool(false));
    FrozenIs(f.paperEndpoint, Bool(true));
    FrozenIs(f.bookUnchanged, Bool(true));
    FrozenIs(f.productionFactory, Str(Ascii("backend.app.runtime.build_production_agent")));
    InvocationIsScalar(f.mode);
    FrozenIs(f.invocation, ExpectedInvocation(f.mode));
    FrozenHash(f.sourceHash);
  }

  lemma ScalarFieldsHold(f: Fields)
    ensures FieldsHold(FrozenFields(f)) <==> FieldsHold(f)
  {
    FrozenIs(f.schema, Str(FIXTURE_SCHEMA));
    FrozenIs(f.schema, Str(REHEARSAL_SCHEMA));
    FrozenIs(f.artifactClass, Str(Ascii("FIXTURE_TEST_ONLY")));
    FrozenIs(f.providerRehearsal, Bool(false));
    FrozenIs(f.competitionEvidence, Bool(false));
    ScalarRehearsalFields(f);
  }

  /** Fields tested against strings and booleans survive the round trip. */
  lemma FieldsReadBack(ms: Members)
    requires DistinctKeys(ms)
    ensures FieldsHold(FieldsOf(ReadBack(ms))) <==> FieldsHold(FieldsOf(ms))
  {
    forall q ensures Field(ReadBack(ms), q) == Frozen(Field(ms, q)) {
      ReadBackLookup(ms, q);
    }
    assert FieldsOf(ReadBack(ms)) == FrozenFields(FieldsOf(ms));
    ScalarFieldsHold(FieldsOf(ms));
  }

  // ---- The round trip of a sealed directory ----

  lemma KeysDiffer()
    ensures SCHEMA != RUN_ID && SCHEMA != CAPTURED_AT && SCHEMA != MODE && RUN_ID != CAPTURED_AT
    ensures RUN_ID != MODE && CAPTURED_AT != MODE
    ensures PUBLIC_HASH != SCHEMA && PUBLIC_HASH != RUN_ID && PUBLIC_HASH != CAPTURED_AT && PUBLIC_HASH != MODE
    ensures PRIVATE_HASH != SCHEMA && PRIVATE_HASH != RUN_ID && PRIVATE_HASH != CAPTURED_AT && PRIVATE_HASH != MODE
  {
    assert SCHEMA[0] != RUN_ID[0];
    assert |SCHEMA| == |RUN_ID| == 6 && |CAPTURED_AT| == 11 && |MODE| == 4;
    assert |PUBLIC_HASH| == 21 && |PRIVATE_HASH| == 23;
  }

  lemma HeaderLookup(ms: Members, h: Header, q: Text)
    requires DistinctKeys(ms)
    ensures DistinctKeys(WithHeader(ms, h))
    ensures Lookup(WithHeader(ms, h), q) ==
              if q == MODE then Some(Str(h.mode)) else if q == CAPTURED_AT then Some(Str(h.capturedAt))
              else if q == RUN_ID then Some(Str(h.runId)) else if q == SCHEMA then Some(Str(h.schema)) else Lookup(ms, q)
  {
    var a := Put(ms, SCHEMA, Str(h.schema));
    var b := Put(a, RUN_ID, Str(h.runId));
    var c := Put(b, CAPTURED_AT, Str(h.capturedAt));
    PutLookup(ms, SCHEMA, Str(h.schema), q);
    PutLookup(a, RUN_ID, Str(h.runId), q);
    PutLookup(b, CAPTURED_AT, Str(h.capturedAt), q);
    PutLookup(c, MODE, Str(h.mode), q);
  }

  /** A document that carries the header, under a hash key that is not a header field. */
  ghost predicate CarriesHeader(ms: Members, h: Header) {
    && Field(ms, SCHEMA) == Str(h.schema) && Field(ms, RUN_ID) == Str(h.runId)
    && Field(ms, CAPTURED_AT) == Str(h.capturedAt) && Field(ms, MODE) == Str(h.mode)
  }

  lemma HeaderCarried(ms: Members, h: Header, key: Text, value: Json)
    requires DistinctKeys(ms) && key != SCHEMA && key != RUN_ID && key != CAPTURED_AT && key != MODE
    ensures CarriesHeader(WithHeader(ms, h), h) && CarriesHeader(Put(WithHeader(ms, h), key, value), h)
    ensures DistinctKeys(Put(WithHeader(ms, h), key, value))
    ensures Field(Put(WithHeader(ms, h), key, value), key) == value
    ensures Lookup(WithHeader(ms, h), key) == Lookup(ms, key)
  {
    KeysDiffer();
    var core := WithHeader(ms, h);
    HeaderLookup(ms, h, SCHEMA);
    HeaderLookup(ms, h, RUN_ID);
    HeaderLookup(ms, h, CAPTURED_AT);
    HeaderLookup(ms, h, MODE);
    HeaderLookup(ms, h, key);
    PutLookup(core, key, value, SCHEMA);
    PutLookup(core, key, value, RUN_ID);
    PutLookup(core, key, value, CAPTURED_AT);
    PutLookup(core, key, value, MODE);
    PutLookup(core, key, value, key);
  }

  lemma HeaderPython(fl: Floats, ms: Members, h: Header)
    requires IsPython(fl, Obj(ms))
    ensures IsPython(fl, Obj(WithHeader(ms, h)))
  {
    var a := Put(ms, SCHEMA, Str(h.schema));
    var b := Put(a, RUN_ID, Str(h.runId));
    var c := Put(b, CAPTURED_AT, Str(h.capturedAt));
    PutPython(fl, ms, SCHEMA, Str(h.schema));
    PutPython(fl, a, RUN_ID, Str(h.runId));
    PutPython(fl, b, CAPTURED_AT, Str(h.capturedAt));
    PutPython(fl, c, MODE, Str(h.mode));
    HeaderLookup(ms, h, []);
  }

  /** Reading back a document and removing the hash key leaves the core, unless the core used that key. */
  lemma CoreReadsBack(fl: Floats, core: Members, hashText: Text)
    requires IsPython(fl, Obj(core)) && !Has(core, PUBLIC_HASH)
    ensures Frozen(Obj(Remove(ReadBack(Put(core, PUBLIC_HASH, Str(hashText))), PUBLIC_HASH))) == Frozen(Obj(core))
  {
    var put := Put(core, PUBLIC_HASH, Str(hashText));
    PutLookup(core, PUBLIC_HASH, Str(hashText), []);
    ReadBackLookup(put, []);
    var rest := Remove(ReadBack(put), PUBLIC_HASH);
    RemoveLookup(ReadBack(put), PUBLIC_HASH, []);
    ReadBackLookup(core, []);
    forall q ensures Lookup(rest, q) == Lookup(ReadBack(core), q) {
      RemoveLookup(ReadBack(put), PUBLIC_HASH, q);
      ReadBackLookup(put, q);
      ReadBackLookup(core, q);
      PutLookup(core, PUBLIC_HASH, Str(hashText), q);
    }
    SameDictionaryFreezesAlike(rest, ReadBack(core));
    FrozenTwice(fl, Obj(core));
  }

  /** What `Documents` was given and what it wrote. */
  ghost predicate Writes(fl: Floats, hash: Hash, private: Members, public: Members, h: Header, sealed: Sealed) {
    var core := WithHeader(private, h);
    && IsPython(fl, Obj(private)) && IsPython(fl, Obj(public))
    && Accepted(fl, Obj(core), MAX_PRIVATE_BYTES)
    && Accepted(fl, Obj(PublicPayload(hash, core, public, h)), MAX_PUBLIC_BYTES)
    && Accepted(fl, Obj(PrivatePayload(hash, core, public, h)), MAX_PRIVATE_BYTES)
    && sealed == Sealed(Payload(Obj(PrivatePayload(hash, core, public, h))), Payload(Obj(PublicPayload(hash, core, public, h))))
  }

  /** A written directory parses to the two documents, read back. */
  lemma WrittenParses(fl: Floats, hash: Hash, private: Members, public: Members, h: Header, sealed: Sealed)
    requires Writes(fl, hash, private, public, h, sealed)
    ensures var core := WithHeader(private, h);
            && ParseObject(fl.repr, sealed.public) == Some(ReadBack(PublicPayload(hash, core, public, h)))
            && ParseObject(fl.repr, sealed.private) == Some(ReadBack(PrivatePayload(hash, core, public, h)))
            && |sealed.public| <= MAX_PUBLIC_BYTES && |sealed.private| <= MAX_PRIVATE_BYTES
            && IsPython(fl, Obj(core)) && IsPython(fl, Obj(PublicPayload(hash, core, public, h)))
            && IsPython(fl, Obj(PrivatePayload(hash, core, public, h)))
  {
    var core := WithHeader(private, h);
    var publicPayload, privatePayload := PublicPayload(hash, core, public, h), PrivatePayload(hash, core, public, h);
    HeaderPython(fl, private, h);
    HeaderPython(fl, public, h);
    PutPython(fl, WithHeader(public, h), PRIVATE_HASH, Str(hash(Payload(Obj(core)))));
    PutLookup(WithHeader(public, h), PRIVATE_HASH, Str(hash(Payload(Obj(core)))), []);
    PutPython(fl, core, PUBLIC_HASH, Str(hash(Payload(Obj(publicPayload)))));
    PutLookup(core, PUBLIC_HASH, Str(hash(Payload(Obj(publicPayload)))), []);
    PayloadReadsBack(fl, publicPayload, MAX_PUBLIC_BYTES);
    PayloadReadsBack(fl, privatePayload, MAX_PRIVATE_BYTES);
  }

  lemma PublicReadsBack(fl: Floats, public: Members, h: Header, coreHash: Json)
    requires IsPython(fl, Obj(public)) && coreHash.Str?
    requires Accepted(fl, Obj(Put(WithHeader(public, h), PRIVATE_HASH, coreHash)), MAX_PUBLIC_BYTES)
    ensures var payload := Put(WithHeader(public, h), PRIVATE_HASH, coreHash);
            var back := ReadBack(payload);
            && Accepted(fl, Obj(back), MAX_PUBLIC_BYTES) && Payload(Obj(back)) == Payload(Obj(payload))
            && Field(back, PRIVATE_HASH) == coreHash && CarriesHeader(back, h)
            && (FieldsHold(FieldsOf(back)) <==> FieldsHold(FieldsOf(payload)))
  {
    var payload := Put(WithHeader(public, h), PRIVATE_HASH, coreHash);
    KeysDiffer();
    HeaderPython(fl, public, h);
    PutPython(fl, WithHeader(public, h), PRIVATE_HASH, coreHash);
    HeaderCarried(public, h, PRIVATE_HASH, coreHash);
    FrozenTwice(fl, Obj(payload));
    AcceptedAlike(fl, Obj(ReadBack(payload)), Obj(payload), MAX_PUBLIC_BYTES);
    FieldsReadBack(payload);
    ReadBackLookup(payload, PRIVATE_HASH);
    HeaderReadsBack(payload, h);
  }

  lemma HeaderReadsBack(ms: Members, h: Header)
    requires DistinctKeys(ms) && CarriesHeader(ms, h)
    ensures CarriesHeader(ReadBack(ms), h) && DistinctKeys(ReadBack(ms))
    ensures CarriesHeader(Remove(ReadBack(ms), PUBLIC_HASH), h)
  {
    KeysDiffer();
    ReadBackLookup(ms, SCHEMA);
    ReadBackLookup(ms, RUN_ID);
    ReadBackLookup(ms, CAPTURED_AT);
    ReadBackLookup(ms, MODE);
    RemoveLookup(ReadBack(ms), PUBLIC_HASH, SCHEMA);
    RemoveLookup(ReadBack(ms), PUBLIC_HASH, RUN_ID);
    RemoveLookup(ReadBack(ms), PUBLIC_HASH, CAPTURED_AT);
    RemoveLookup(ReadBack(ms), PUBLIC_HASH, MODE);
  }

  lemma PrivateReadsBack(fl: Floats, private: Members, h: Header, publicHash: Json)
    requires IsPython(fl, Obj(private)) && publicHash.Str? && !Has(private, PUBLIC_HASH)
    requires Accepted(fl, Obj(WithHeader(private, h)), MAX_PRIVATE_BYTES)
    ensures var core := WithHeader(private, h);
            var back := ReadBack(Put(core, PUBLIC_HASH, publicHash));
            var rest := Remove(back, PUBLIC_HASH);
            && Accepted(fl, Obj(rest), MAX_PRIVATE_BYTES) && Payload(Obj(rest)) == Payload(Obj(core))
            && Field(back, PUBLIC_HASH) == publicHash && CarriesHeader(rest, h)
  {
    var core := WithHeader(private, h);
    var put := Put(core, PUBLIC_HASH, publicHash);
    KeysDiffer();
    HeaderPython(fl, private, h);
    HeaderCarried(private, h, PUBLIC_HASH, publicHash);
    assert Lookup(core, PUBLIC_HASH) == None;
    CoreReadsBack(fl, core, publicHash.s);
    AcceptedAlike(fl, Obj(Remove(ReadBack(put), PUBLIC_HASH)), Obj(core), MAX_PRIVATE_BYTES);
    ReadBackLookup(put, PUBLIC_HASH);
    HeaderReadsBack(put, h);
  }

  lemma BindsWhen(fl: Floats, hash: Hash, text: Text, public: Members, private: Members, h: Header)
    requires var core := Remove(private, PUBLIC_HASH);
             && Accepted(fl, Obj(public), MAX_PUBLIC_BYTES) && Accepted(fl, Obj(core), MAX_PRIVATE_BYTES)
             && text == Payload(Obj(public)) && Field(private, PUBLIC_HASH) == Str(hash(text))
             && Field(public, PRIVATE_HASH) == Str(hash(Payload(Obj(core))))
             && CarriesHeader(public, h) && CarriesHeader(core, h) && FieldsHold(FieldsOf(public))
    ensures Binds(fl, hash, text, public, private)
  {
  }

  lemma VerifiedWhen(fl: Floats, hash: Hash, sealed: Sealed, public: Members, private: Members)
    requires |sealed.public| <= MAX_PUBLIC_BYTES && |sealed.private| <= MAX_PRIVATE_BYTES
    requires ParseObject(fl.repr, sealed.public) == Some(public)
    requires ParseObject(fl.repr, sealed.private) == Some(private)
    ensures Verified(fl, hash, sealed) == if Binds(fl, hash, sealed.public, public, private) then Some(public) else None
  {
  }

  /** A directory sealed from a private core without the reserved key, with the fields its schema asks
      for, passes verification with the same public payload. */
  lemma SealedVerifies(fl: Floats, hash: Hash, private: Members, public: Members, h: Header, sealed: Sealed)
    requires Writes(fl, hash, private, public, h, sealed)
    requires !Has(private, PUBLIC_HASH) && FieldsHold(FieldsOf(PublicPayload(hash, WithHeader(private, h), public, h)))
    ensures Verified(fl, hash, sealed) == Some(ReadBack(PublicPayload(hash, WithHeader(private, h), public, h)))
  {
    var core := WithHeader(private, h);
    WrittenParses(fl, hash, private, public, h, sealed);
    PublicReadsBack(fl, public, h, Str(hash(Payload(Obj(core)))));
    PrivateReadsBack(fl, private, h, Str(hash(sealed.public)));
    var p, q := ReadBack(PublicPayload(hash, core, public, h)), ReadBack(PrivatePayload(hash, core, public, h));
    BindsWhen(fl, hash, sealed.public, p, q, h);
    VerifiedWhen(fl, hash, sealed, p, q);
  }

  /** The public payload read back is the one sealed, up to the order of its keys. */
  lemma SamePublicPayload(fl: Floats, hash: Hash, private: Members, public: Members, h: Header, sealed: Sealed)
    requires Writes(fl, hash, private, public, h, sealed)
    ensures var payload := PublicPayload(hash, WithHeader(private, h), public, h);
            Equivalent(Obj(ReadBack(payload)), Obj(payload))
  {
    WrittenParses(fl, hash, private, public, h, sealed);
    var payload := PublicPayload(hash, WithHeader(private, h), public, h);
    FrozenTwice(fl, Obj(payload));
    AlikeAreEquivalent(fl, Obj(ReadBack(payload)), Obj(payload));
  }

  /** With an injective hash the reserved key in the private core always makes verification fail. */
  lemma ReservedKeyFails(fl: Floats, hash: Hash, private: Members, public: Members, h: Header, sealed: Sealed)
    requires Writes(fl, hash, private, public, h, sealed) && Injective(hash) && Has(private, PUBLIC_HASH)
    ensures Verified(fl, hash, sealed) == None
  {
    var core := WithHeader(private, h);
    var coreHash := Str(hash(Payload(Obj(core))));
    var privatePayload := PrivatePayload(hash, core, public, h);
    WrittenParses(fl, hash, private, public, h, sealed);
    PublicReadsBack(fl, public, h, coreHash);
    KeysDiffer();
    HeaderCarried(private, h, PUBLIC_HASH, Str(hash(sealed.public)));
    assert Has(core, PUBLIC_HASH) by {
      assert Lookup(core, PUBLIC_HASH) != None;
    }
    var back := ReadBack(privatePayload);
    var rest := Remove(back, PUBLIC_HASH);
    ReadBackLookup(privatePayload, []);
    RemoveLookup(back, PUBLIC_HASH, PUBLIC_HASH);
    FrozenTwice(fl, Obj(privatePayload));
    RemovePython(fl, back, PUBLIC_HASH);
    if Accepted(fl, Obj(rest), MAX_PRIVATE_BYTES) && Payload(Obj(rest)) == Payload(Obj(core)) {
      SameBytesIffEquivalent(fl, Obj(rest), Obj(core), MAX_PRIVATE_BYTES, MAX_PRIVATE_BYTES);
      KeysWithinHas(core, rest, PUBLIC_HASH);
      assert false;
    }
  }

  /** Exactly when what `_seal` writes passes its own verification. */
  lemma SealedVerifiesExactly(fl: Floats, hash: Hash, private: Members, public: Members, h: Header, sealed: Sealed)
    requires Writes(fl, hash, private, public, h, sealed) && Injective(hash)
    ensures Verified(fl, hash, sealed).Some? <==>
              !Has(private, PUBLIC_HASH) && FieldsHold(FieldsOf(PublicPayload(hash, WithHeader(private, h), public, h)))
  {
    if Has(private, PUBLIC_HASH) {
      ReservedKeyFails(fl, hash, private, public, h, sealed);
    } else if FieldsHold(FieldsOf(PublicPayload(hash, WithHeader(private, h), public, h))) {
      SealedVerifies(fl, hash, private, public, h, sealed);
    } else {
      WrittenParses(fl, hash, private, public, h, sealed);
      PublicReadsBack(fl, public, h, Str(hash(Payload(Obj(WithHeader(private, h))))));
    }
  }

  // ---- What the public bytes fix ----

  /** Whatever is parsed is a Python value. */
  lemma {:induction false} ParsedIsPython(fl: Floats, s: Text)
    requires FloatsOk(fl) && ParseValue(fl.repr, s).Some?
    ensures IsPython(fl, ParseValue(fl.repr, s).value.0)
    decreases |s|, 1
  {
    if s[0] == 34 {
    } else if s[0] == 123 {
      var inner := SkipSpace(s[1..]);
      if inner == [] || inner[0] != 125 {
        ParsedMembersPython(fl, inner);
      }
    } else if s[0] == 91 {
      var inner := SkipSpace(s[1..]);
      if inner == [] || inner[0] != 93 {
        ParsedElementsPython(fl, inner);
      }
    }
  }

  lemma {:induction false} ParsedMembersPython(fl: Floats, s: Text)
    requires FloatsOk(fl) && ParseMembers(fl.repr, s).Some?
    ensures MembersArePython(fl, ParseMembers(fl.repr, s).value.0)
    decreases |s|, 0
  {
    var afterKey := ParseKey(s).value.1;
    ParsedIsPython(fl, afterKey);
    var next := SkipSpace(ParseValue(fl.repr, afterKey).value.1);
    if next[0] == 44 {
      ParsedMembersPython(fl, SkipSpace(next[1..]));
    }
  }

  lemma {:induction false} ParsedElementsPython(fl: Floats, s: Text)
    requires FloatsOk(fl) && ParseElements(fl.repr, s).Some?
    ensures ArePython(fl, ParseElements(fl.repr, s).value.0)
    decreases |s|, 2
  {
    ParsedIsPython(fl, s);
    var next := SkipSpace(ParseValue(fl.repr, s).value.1);
    if next[0] == 44 {
      ParsedElementsPython(fl, SkipSpace(next[1..]));
    }
  }

  /** Under an injective hash, two accepted directories with the same public bytes carry the same
      private payload, whatever the text of the private documents. */
  lemma PublicFixesPrivate(fl: Floats, hash: Hash, a: Sealed, b: Sealed)
    requires FloatsOk(fl) && Injective(hash) && a.public == b.public
    requires Verified(fl, hash, a).Some? && Verified(fl, hash, b).Some?
    ensures Equivalent(Obj(Remove(ParseObject(fl.repr, a.private).value, PUBLIC_HASH)),
                       Obj(Remove(ParseObject(fl.repr, b.private).value, PUBLIC_HASH)))
    ensures Field(ParseObject(fl.repr, a.private).value, PUBLIC_HASH) ==
            Field(ParseObject(fl.repr, b.private).value, PUBLIC_HASH)
  {
    var pa, pb := ParseObject(fl.repr, a.private).value, ParseObject(fl.repr, b.private).value;
    ParsedIsPython(fl, SkipSpace(a.private));
    ParsedIsPython(fl, SkipSpace(b.private));
    RemovePython(fl, pa, PUBLIC_HASH);
    RemovePython(fl, pb, PUBLIC_HASH);
    RemoveLookup(pa, PUBLIC_HASH, []);
    RemoveLookup(pb, PUBLIC_HASH, []);
    SameBytesIffEquivalent(fl, Obj(Remove(pa, PUBLIC_HASH)), Obj(Remove(pb, PUBLIC_HASH)),
                           MAX_PRIVATE_BYTES, MAX_PRIVATE_BYTES);
  }
}
