/**
 Domain-separated identities (mmi/canonical.py) and resumption from a self-identified
 artifact (mmi/run_context_resumption.py). SHA-256 is a parameter, the function from bytes
 to its hexadecimal digest; every binding result names the collision it would take to break it.
 */
module Identity {
  import opened Outcomes
  import opened Texts
  import opened JsonValues
  import opened JsonText
  import opened JsonRoundTrip
  import opened Canonical

  type Hash = Bytes -> Text

  predicate Collision(h: Hash, a: Bytes, b: Bytes) {
    a != b && h(a) == h(b)
  }

  /** Sixty-four lower-case hexadecimal digits. */
  predicate IsSha256(t: Text) {
    |t| == 64 && forall i :: 0 <= i < 64 ==> 48 <= t[i] < 58 || 97 <= t[i] < 103
  }

  // ----- framing -----

  predicate ValidDomain(domain: Bytes) {
    && domain != [] && domain[|domain| - 1] == 0
    && (forall i :: 0 <= i < |domain| - 1 ==> domain[i] != 0)
    && (forall i :: 0 <= i < |domain| ==> domain[i] < 0x80)
  }

  function BigEndian(n: nat, width: nat): (bs: Bytes)
    ensures |bs| == width
  {
    if width == 0 then [] else BigEndian(n / 256, width - 1) + [n % 256]
  }

  const PACK_LIMIT: nat := 0x1_0000_0000_0000_0000

  /** The hashed material: domain, eight-byte payload length, payload. */
  function Frame(domain: Bytes, payload: Bytes): Bytes {
    domain + BigEndian(|payload|, 8) + payload
  }

  lemma DomainNotLonger(d1: Bytes, d2: Bytes, m: Bytes)
    requires ValidDomain(d1) && ValidDomain(d2) && d1 <= m && d2 <= m
    ensures |d2| <= |d1|
  {
    assert m[|d1| - 1] == 0;
    assert |d1| <= |d2| ==> d2[|d1| - 1] == m[|d1| - 1];
  }

  /** A domain ends at the first zero byte, so framing loses nothing. */
  lemma FrameInjective(d1: Bytes, p1: Bytes, d2: Bytes, p2: Bytes)
    requires ValidDomain(d1) && ValidDomain(d2)
    requires Frame(d1, p1) == Frame(d2, p2)
    ensures d1 == d2 && p1 == p2
  {
    var m := Frame(d1, p1);
    assert d1 <= m && d2 <= m;
    DomainNotLonger(d1, d2, m);
    DomainNotLonger(d2, d1, m);
    assert d1 == m[..|d1|] == d2;
    assert p1 == m[|d1| + 8..] == p2;
  }

  // ----- identities -----

  datatype IdentityError =
    | DomainInvalid
    | CanonicalFailure(e: CanonicalError)
    | LengthUnpackable

  function DomainSeparated(h: Hash, domain: Bytes, v: Json, maximumBytes: int): Result<Text, IdentityError> {
    if !ValidDomain(domain) then Err(DomainInvalid)
    else
      match CanonicalJsonBytes(v, maximumBytes)
      case Err(e) => Err(CanonicalFailure(e))
      case Ok(canonical) =>
        if |canonical| >= PACK_LIMIT then Err(LengthUnpackable)
        else Ok(h(Frame(domain, canonical)))
  }

  /** The bytes hashed for a value whose canonical form exists. */
  function Material(domain: Bytes, v: Json, maximumBytes: int): Bytes {
    match CanonicalJsonBytes(v, maximumBytes)
    case Err(_) => []
    case Ok(canonical) => Frame(domain, canonical)
  }

  /** Equal digests mean equal domains and equal values, or a collision in hand. */
  lemma DigestBinds(h: Hash, d1: Bytes, v1: Json, m1: int, d2: Bytes, v2: Json, m2: int)
    requires WellFormed(v1) && WellFormed(v2)
    requires DomainSeparated(h, d1, v1, m1).Ok?
    requires DomainSeparated(h, d2, v2, m2) == DomainSeparated(h, d1, v1, m1)
    ensures (d1 == d2 && SameValue(v1, v2))
         || Collision(h, Material(d1, v1, m1), Material(d2, v2, m2))
  {
    var c1, c2 := CanonicalJsonBytes(v1, m1).value, CanonicalJsonBytes(v2, m2).value;
    if Frame(d1, c1) == Frame(d2, c2) {
      FrameInjective(d1, c1, d2, c2);
      CanonicalInjective(v1, v2, m1, m2);
    }
  }

  // ----- records that carry their own identity -----

  function Without(members: seq<Member>, field: Text): seq<Member> {
    if members == [] then []
    else if members[0].key == field then Without(members[1..], field)
    else [members[0]] + Without(members[1..], field)
  }

  function Get(members: seq<Member>, field: Text): Option<Json> {
    if members == [] then None
    else if members[0].key == field then Some(members[0].value)
    else Get(members[1..], field)
  }

  function RecordIdentity(h: Hash, record: seq<Member>, field: Text, domain: Bytes, maximumBytes: int)
    : Result<Text, IdentityError>
  {
    DomainSeparated(h, domain, Obj(Without(record, field)), maximumBytes)
  }

  function RecordMaterial(record: seq<Member>, field: Text, domain: Bytes, maximumBytes: int): Bytes {
    Material(domain, Obj(Without(record, field)), maximumBytes)
  }

  lemma {:induction false} WithoutKeys(members: seq<Member>, field: Text, i: nat) returns (j: nat)
    requires i < |Without(members, field)|
    ensures j < |members| && members[j] == Without(members, field)[i] && members[j].key != field && i <= j
  {
    if members[0].key == field {
      j := WithoutKeys(members[1..], field, i);
      j := j + 1;
    } else if i == 0 {
      j := 0;
    } else {
      j := WithoutKeys(members[1..], field, i - 1);
      j := j + 1;
    }
  }

  lemma {:induction false} WithoutDistinct(members: seq<Member>, field: Text)
    requires DistinctKeys(members)
    ensures DistinctKeys(Without(members, field))
  {
    if members != [] {
      WithoutDistinct(members[1..], field);
      var rest := Without(members[1..], field);
      if members[0].key != field {
        forall j | 0 <= j < |rest| ensures rest[j].key != members[0].key {
          var k := WithoutKeys(members[1..], field, j);
          assert members[k + 1] == rest[j];
        }
      }
    }
  }

  lemma WithoutWellFormed(members: seq<Member>, field: Text)
    requires WellFormed(Obj(members))
    ensures WellFormed(Obj(Without(members, field)))
  {
    WithoutDistinct(members, field);
    var rest := Without(members, field);
    forall i | 0 <= i < |rest| ensures WellFormed(rest[i].value) {
      var j := WithoutKeys(members, field, i);
    }
  }

  lemma {:induction false} WithoutIgnoresPut(members: seq<Member>, field: Text, v: Json)
    ensures Without(Put(members, Member(field, v)), field) == Without(members, field)
  {
    if members != [] && members[0].key != field {
      WithoutIgnoresPut(members[1..], field, v);
    }
  }

  lemma {:induction false} GetAfterPut(members: seq<Member>, field: Text, v: Json)
    ensures Get(Put(members, Member(field, v)), field) == Some(v)
  {
    if members != [] && members[0].key != field {
      GetAfterPut(members[1..], field, v);
    }
  }

  /** Recomputing the identity from everything but the identity field gives what the field holds. */
  predicate SelfIdentified(h: Hash, record: seq<Member>, field: Text, domain: Bytes, maximumBytes: int) {
    match RecordIdentity(h, record, field, domain, maximumBytes)
    case Err(_) => false
    case Ok(id) => Get(record, field) == Some(Str(id))
  }

  /** The stored identity never affects the computed one, so filling the field makes the check pass. */
  lemma FillThenCheck(h: Hash, record: seq<Member>, field: Text, domain: Bytes, maximumBytes: int, placeholder: Json)
    ensures var filled := Put(record, Member(field, placeholder));
            RecordIdentity(h, filled, field, domain, maximumBytes)
              == RecordIdentity(h, record, field, domain, maximumBytes)
    ensures var id := RecordIdentity(h, record, field, domain, maximumBytes);
            id.Ok? ==> SelfIdentified(h, Put(record, Member(field, Str(id.value))), field, domain, maximumBytes)
  {
    WithoutIgnoresPut(record, field, placeholder);
    var id := RecordIdentity(h, record, field, domain, maximumBytes);
    if id.Ok? {
      WithoutIgnoresPut(record, field, Str(id.value));
      GetAfterPut(record, field, Str(id.value));
    }
  }

  /** Same value at every field but the identity field, in both directions. */
  predicate AgreeExcept(r1: seq<Member>, f1: Text, r2: seq<Member>, f2: Text) {
    SameValue(Obj(Without(r1, f1)), Obj(Without(r2, f2)))
  }

  /** Two records with one identity agree on every field but that identity, or collide. */
  lemma IdentityBinds(h: Hash, r1: seq<Member>, f1: Text, d1: Bytes, m1: int,
                      r2: seq<Member>, f2: Text, d2: Bytes, m2: int)
    requires WellFormed(Obj(r1)) && WellFormed(Obj(r2))
    requires RecordIdentity(h, r1, f1, d1, m1).Ok?
    requires RecordIdentity(h, r2, f2, d2, m2) == RecordIdentity(h, r1, f1, d1, m1)
    ensures (d1 == d2 && AgreeExcept(r1, f1, r2, f2))
         || Collision(h, RecordMaterial(r1, f1, d1, m1), RecordMaterial(r2, f2, d2, m2))
  {
    WithoutWellFormed(r1, f1);
    WithoutWellFormed(r2, f2);
    DigestBinds(h, d1, Obj(Without(r1, f1)), m1, d2, Obj(Without(r2, f2)), m2);
  }

  // ----- looking a field up does not depend on member order -----

  lemma {:induction false} GetAt(members: seq<Member>, i: nat)
    requires DistinctKeys(members) && i < |members|
    ensures Get(members, members[i].key) == Some(members[i].value)
  {
    if i > 0 {
      GetAt(members[1..], i - 1);
    }
  }

  lemma {:induction false} GetFinds(members: seq<Member>, field: Text) returns (i: nat)
    requires Get(members, field).Some?
    ensures i < |members| && members[i] == Member(field, Get(members, field).value)
  {
    if members[0].key == field {
      i := 0;
    } else {
      i := GetFinds(members[1..], field);
      i := i + 1;
    }
  }

  lemma {:induction false} GetWithout(members: seq<Member>, dropped: Text, field: Text)
    requires field != dropped
    ensures Get(Without(members, dropped), field) == Get(members, field)
  {
    if members != [] {
      GetWithout(members[1..], dropped, field);
    }
  }

  lemma SameObjectSameField(a: seq<Member>, b: seq<Member>, field: Text)
    requires WellFormed(Obj(a)) && WellFormed(Obj(b)) && SameValue(Obj(a), Obj(b))
    requires Get(a, field).Some?
    ensures Get(b, field).Some? && SameValue(Get(a, field).value, Get(b, field).value)
  {
    var i := GetFinds(a, field);
    assert HasTwin(a[i], b);
    var j :| 0 <= j < |b| && a[i].key == b[j].key && SameValue(a[i].value, b[j].value);
    GetAt(b, j);
  }

  // ----- detaching a record leaves its fields and its identity as they were -----

  lemma GetNormal(members: seq<Member>, field: Text)
    requires DistinctKeys(members)
    ensures Get(Normal(Obj(members)).members, field)
         == match Get(members, field) { case None => None case Some(v) => Some(Normal(v)) }
  {
    NormalObject(members);
    var sorted, normal := Normal(Obj(members)).members, NormalMembers(members);
    SortedDistinct(sorted);
    if Get(members, field).Some? {
      var i := GetFinds(members, field);
      assert normal[i] in multiset(sorted);
      var j :| 0 <= j < |sorted| && sorted[j] == normal[i];
      GetAt(sorted, j);
    } else if Get(sorted, field).Some? {
      var j := GetFinds(sorted, field);
      assert sorted[j] in multiset(normal);
      var i :| 0 <= i < |normal| && normal[i] == sorted[j];
      GetAt(members, i);
    }
  }

  lemma {:induction false} WithoutInsert(m: Member, members: seq<Member>, field: Text)
    requires SortedMembers(members)
    ensures Without(InsertMember(m, members), field)
         == if m.key == field then Without(members, field) else InsertMember(m, Without(members, field))
    decreases |members|
  {
    if members != [] {
      var rest := members[1..];
      if Before(members[0].key, m.key) {
        WithoutInsert(m, rest, field);
        assert ([members[0]] + InsertMember(m, rest))[1..] == InsertMember(m, rest);
      } else {
        assert ([m] + members)[1..] == members;
        if m.key != field && members[0].key == field {
          InsertInFront(m, members, field);
        }
      }
    }
  }

  lemma InsertInFront(m: Member, members: seq<Member>, field: Text)
    requires SortedMembers(members) && members != [] && !Before(members[0].key, m.key)
    ensures InsertMember(m, Without(members, field)) == [m] + Without(members, field)
  {
    var rest := Without(members, field);
    if rest != [] {
      var j := WithoutKeys(members, field, 0);
      BeforeTotal(members[0].key, m.key);
      if j > 0 && m.key != members[0].key {
        BeforeTransitive(m.key, members[0].key, members[j].key);
      }
      if Before(rest[0].key, m.key) {
        BeforeStrict(rest[0].key, m.key);
      }
    }
  }

  lemma {:induction false} WithoutSort(members: seq<Member>, field: Text)
    requires DistinctKeys(members)
    ensures Without(SortMembers(members), field) == SortMembers(Without(members, field))
  {
    if members != [] {
      WithoutSort(members[1..], field);
      SortSorts(members[1..]);
      WithoutInsert(members[0], SortMembers(members[1..]), field);
    }
  }

  lemma {:induction false} WithoutNormalMembers(members: seq<Member>, field: Text)
    ensures Without(NormalMembers(members), field) == NormalMembers(Without(members, field))
  {
    if members != [] {
      WithoutNormalMembers(members[1..], field);
      assert NormalMembers(members)[1..] == NormalMembers(members[1..]);
    }
  }

  lemma WithoutNormal(members: seq<Member>, field: Text)
    requires DistinctKeys(members)
    ensures Obj(Without(Normal(Obj(members)).members, field)) == Normal(Obj(Without(members, field)))
  {
    WithoutNormalMembers(members, field);
    WithoutSort(NormalMembers(members), field);
  }

  lemma IdentityOfDetached(h: Hash, record: seq<Member>, field: Text, domain: Bytes, maximumBytes: int)
    requires WellFormed(Obj(record)) && RecordIdentity(h, record, field, domain, maximumBytes).Ok?
    ensures RecordIdentity(h, Normal(Obj(record)).members, field, domain, maximumBytes)
         == RecordIdentity(h, record, field, domain, maximumBytes)
  {
    WithoutWellFormed(record, field);
    WithoutNormal(record, field);
    DetachedIsCanonical(Obj(Without(record, field)), maximumBytes, maximumBytes);
  }

  // ----- resumption -----

  const TIMESTAMP_FIELD: Text := Ascii("evaluation_timestamp_utc")

  /** `_snapshot_mapping`: detach a dictionary through its canonical bytes. */
  function SnapshotMapping(value: Json, maximumBytes: int): Option<seq<Member>> {
    if !value.Obj? then None
    else
      match CanonicalJsonBytes(value, maximumBytes)
      case Err(_) => None
      case Ok(encoded) =>
        match LoadBytes(encoded, false)
        case Bad => None
        case Parsed(v, _) => if v.Obj? then Some(v.members) else None
  }

  lemma SnapshotIsNormal(value: Json, maximumBytes: int)
    requires WellFormed(value)
    ensures SnapshotMapping(value, maximumBytes)
         == if value.Obj? && CanonicalJsonBytes(value, maximumBytes).Ok? then Some(Normal(value).members) else None
    ensures SnapshotMapping(value, maximumBytes).Some? ==> Detached(SnapshotMapping(value, maximumBytes).value)
  {
    if value.Obj? && CanonicalJsonBytes(value, maximumBytes).Ok? {
      CanonicalReloads(value, maximumBytes, false);
      NormalWellFormed(value);
      NormalIdempotent(value);
    }
  }

  /** The evaluation time a run context may be minted from, taken only from the validated snapshot. */
  function Resume(artifact: Json, expectedIdentity: Text, validate: seq<Member> -> bool, field: Text,
                  maximumBytes: int, isTimestamp: Text -> bool): Option<Text>
  {
    if field == [] || maximumBytes <= 0 then None
    else
      match SnapshotMapping(artifact, maximumBytes)
      case None => None
      case Some(snapshot) =>
        if !IsSha256(expectedIdentity) || !validate(snapshot) then None
        else if Get(snapshot, field) != Some(Str(expectedIdentity)) then None
        else
          match Get(snapshot, TIMESTAMP_FIELD)
          case Some(Str(timestamp)) => if isTimestamp(timestamp) then Some(timestamp) else None
          case _ => None
  }

  /** A validator that recomputes the identity its artifact carries. */
  ghost predicate ChecksIdentity(validate: seq<Member> -> bool, h: Hash, field: Text, domain: Bytes,
                                 maximumBytes: int) {
    forall record :: Detached(record) && validate(record) ==> SelfIdentified(h, record, field, domain, maximumBytes)
  }

  /** What a snapshot always is: a well-formed object with its keys in order throughout. */
  predicate Detached(record: seq<Member>) {
    WellFormed(Obj(record)) && Normal(Obj(record)) == Obj(record)
  }

  /** The bytes hashed for an artifact once it is detached. */
  function ArtifactMaterial(artifact: Json, field: Text, domain: Bytes, maximumBytes: int): Bytes {
    match SnapshotMapping(artifact, maximumBytes)
    case None => []
    case Some(snapshot) => RecordMaterial(snapshot, field, domain, maximumBytes)
  }

  /** Two artifacts resumed under one expected identity name one evaluation time, or collide. */
  lemma ResumedTimesAgree(h: Hash, a: Json, b: Json, expected: Text, validate: seq<Member> -> bool,
                          field: Text, domain: Bytes, maximumBytes: int, isTimestamp: Text -> bool)
    requires WellFormed(a) && WellFormed(b)
    requires ChecksIdentity(validate, h, field, domain, maximumBytes) && field != TIMESTAMP_FIELD
    requires Resume(a, expected, validate, field, maximumBytes, isTimestamp).Some?
    requires Resume(b, expected, validate, field, maximumBytes, isTimestamp).Some?
    ensures Resume(a, expected, validate, field, maximumBytes, isTimestamp)
              == Resume(b, expected, validate, field, maximumBytes, isTimestamp)
         || Collision(h, ArtifactMaterial(a, field, domain, maximumBytes),
                      ArtifactMaterial(b, field, domain, maximumBytes))
  {
    SnapshotIsNormal(a, maximumBytes);
    SnapshotIsNormal(b, maximumBytes);
    var sa, sb := SnapshotMapping(a, maximumBytes).value, SnapshotMapping(b, maximumBytes).value;
    assert SelfIdentified(h, sa, field, domain, maximumBytes);
    assert SelfIdentified(h, sb, field, domain, maximumBytes);
    IdentityBinds(h, sa, field, domain, maximumBytes, sb, field, domain, maximumBytes);
    if AgreeExcept(sa, field, sb, field) {
      WithoutWellFormed(sa, field);
      WithoutWellFormed(sb, field);
      GetWithout(sa, field, TIMESTAMP_FIELD);
      GetWithout(sb, field, TIMESTAMP_FIELD);
      SameObjectSameField(Without(sa, field), Without(sb, field), TIMESTAMP_FIELD);
    }
  }
}
