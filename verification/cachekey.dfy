/** decisionCacheKey: the NUL-joined, sorted encoding of a request. */
module CacheKey {
  import opened Schema
  import opened Text

  function TypeName(t: SubjectType): string {
    match t
    case Membership => "membership"
    case ServiceAccount => "service_account"
    case Group => "group"
    case User => "user"
  }

  function AttributePart(attributes: map<string, string>, key: string): string
    requires key in attributes
  {
    key + "=" + attributes[key]
  }

  ghost function AttributeParts(attributes: map<string, string>): (parts: seq<string>)
    ensures |parts| == |Sorted(attributes.Keys)|
    ensures forall i :: 0 <= i < |parts| ==>
              Sorted(attributes.Keys)[i] in attributes
                && parts[i] == AttributePart(attributes, Sorted(attributes.Keys)[i])
  {
    var keys := Sorted(attributes.Keys);
    assert forall i :: 0 <= i < |keys| ==> keys[i] in Elements(keys);
    seq(|keys|, i requires 0 <= i < |keys| => AttributePart(attributes, keys[i]))
  }

  function FieldParts(r: Request): seq<string> {
    [r.tenant, r.subject, Lower(TypeName(r.subjectType)), Lower(r.resourceType), r.resource, Lower(r.action)]
  }

  ghost function Parts(r: Request): seq<string> {
    FieldParts(r) + AttributeParts(r.attributes)
  }

  /** The cache key of a request; no map iteration order enters it. */
  ghost function Key(r: Request): string {
    Join(Parts(r))
  }

  /** The name of a subject type as it stands in the key. */
  lemma TypeNameExact(t: SubjectType)
    ensures t == Membership ==> TypeName(t) == "membership"
    ensures t == ServiceAccount ==> TypeName(t) == "service_account"
    ensures t == Group ==> TypeName(t) == "group"
    ensures t == User ==> TypeName(t) == "user"
  {
  }

  /** The key, written out: six fields, then the attributes as name=value in sorted order. */
  lemma KeyExact(r: Request, names: seq<string>, pairs: seq<string>)
    requires StrictlySorted(names) && Elements(names) == r.attributes.Keys && |pairs| == |names|
    requires forall i :: 0 <= i < |names| ==>
               names[i] in r.attributes && pairs[i] == names[i] + "=" + r.attributes[names[i]]
    ensures Key(r) ==
            Join([r.tenant, r.subject, TypeName(r.subjectType), Lower(r.resourceType), r.resource,
                  Lower(r.action)] + pairs)
  {
    SortedUnique(names, Sorted(r.attributes.Keys));
    LowerTypeName(r.subjectType);
    assert AttributeParts(r.attributes) == pairs;
  }

  /** decisionCacheKey: `order` is the order in which the attribute map is iterated. */
  method DecisionCacheKey(r: Request, order: seq<string>) returns (key: string)
    requires Distinct(order) && Elements(order) == r.attributes.Keys
    ensures key == Key(r)
  {
    var parts := FieldParts(r);
    var keys := SortKeys(order);
    SortKeysSorted(order);
    SortedUnique(keys, Sorted(r.attributes.Keys));
    for i := 0 to |keys|
      invariant parts == FieldParts(r) + AttributeParts(r.attributes)[..i]
    {
      assert keys[i] in Elements(keys);
      PartsOneMore(r, i);
      parts := parts + [AttributePart(r.attributes, keys[i])];
    }
    assert AttributeParts(r.attributes)[..|keys|] == AttributeParts(r.attributes);
    key := Join(parts);
  }

  lemma PartsOneMore(r: Request, i: nat)
    requires i < |AttributeParts(r.attributes)|
    ensures FieldParts(r) + AttributeParts(r.attributes)[..i] + [AttributeParts(r.attributes)[i]] ==
            FieldParts(r) + AttributeParts(r.attributes)[..i + 1]
  {
  }

  // ----- Canonicity -----

  /** No NUL in any field, and the attribute keys belong to the vocabulary `ks`. */
  ghost predicate EncodableOver(r: Request, ks: iset<string>) {
    && NulFree(r.tenant) && NulFree(r.subject) && NulFree(r.resourceType) && NulFree(r.resource) && NulFree(r.action)
    && forall k :: k in r.attributes ==> k in ks && NulFree(k) && NulFree(r.attributes[k])
  }

  /** Attribute keys without '='. */
  ghost function PlainKeys(): iset<string> {
    iset k: string | '=' !in k
  }

  /** No NUL in any field and no '=' in an attribute key. */
  ghost predicate Encodable(r: Request) {
    EncodableOver(r, PlainKeys())
  }

  /** No key of the vocabulary starts with another one followed by '='. */
  ghost predicate NoExtension(ks: iset<string>) {
    forall k, k2 :: k in ks && k2 in ks ==> !HasPrefix(k2, k + "=")
  }

  lemma ExtensionHasEquals(k: string, k2: string)
    ensures HasPrefix(k2, k + "=") ==> '=' in k2
  {
    if HasPrefix(k2, k + "=") {
      assert k2[|k|] == '=';
    }
  }

  lemma PlainKeysHaveNoExtension()
    ensures NoExtension(PlainKeys())
  {
    forall k: string, k2: string | k in PlainKeys() && k2 in PlainKeys() ensures !HasPrefix(k2, k + "=") {
      ExtensionHasEquals(k, k2);
    }
  }

  lemma TypeNameFacts(t: SubjectType)
    ensures NulFree(Lower(TypeName(t)))
  {
    LowerLaws(TypeName(t));
  }

  lemma TypeNameInjective(t: SubjectType, u: SubjectType)
    requires Lower(TypeName(t)) == Lower(TypeName(u))
    ensures t == u
  {
    assert Lower(TypeName(t))[0] == LowerChar(TypeName(t)[0]);
    assert Lower(TypeName(u))[0] == LowerChar(TypeName(u)[0]);
  }

  lemma PartsNulFree(r: Request, ks: iset<string>)
    requires EncodableOver(r, ks)
    ensures AllNulFree(Parts(r))
  {
    TypeNameFacts(r.subjectType);
    LowerLaws(r.resourceType);
    LowerLaws(r.action);
    var ps := AttributeParts(r.attributes);
    assert forall i :: 0 <= i < |ps| ==> NulFree(ps[i]);
  }

  ghost predicate Over(a: map<string, string>, ks: iset<string>) {
    forall k :: k in a ==> k in ks
  }

  /** Equal parts come from equal keys, unless one key extends the other past an '='. */
  lemma EqualParts(k: string, v: string, k2: string, v2: string)
    requires k + "=" + v == k2 + "=" + v2
    ensures (k == k2 && v == v2) || HasPrefix(k2, k + "=") || HasPrefix(k, k2 + "=")
  {
    var u, w := k + "=" + v, k2 + "=" + v2;
    assert k == u[..|k|] && k2 == w[..|k2|];
    if |k| < |k2| {
      assert k + "=" == u[..|k| + 1] == w[..|k| + 1] <= k2;
    } else if |k2| < |k| {
      assert k2 + "=" == w[..|k2| + 1] == u[..|k2| + 1] <= k;
    } else {
      assert v == u[|k| + 1..] && v2 == w[|k2| + 1..];
    }
  }

  lemma AttributesInjective(ks: iset<string>, a: map<string, string>, b: map<string, string>)
    requires NoExtension(ks) && Over(a, ks) && Over(b, ks)
    requires AttributeParts(a) == AttributeParts(b)
    ensures a == b
  {
    var ka, kb := Sorted(a.Keys), Sorted(b.Keys);
    forall i | 0 <= i < |ka| ensures ka[i] == kb[i] && a[ka[i]] == b[kb[i]] {
      assert AttributeParts(a)[i] == AttributeParts(b)[i];
      EqualParts(ka[i], a[ka[i]], kb[i], b[kb[i]]);
    }
    assert ka == kb;
    assert a.Keys == Elements(ka) == Elements(kb) == b.Keys;
    forall k | k in a ensures a[k] == b[k] {
      assert k in Elements(ka);
    }
  }

  /** The two requests name the same check, up to letter case of type and action. */
  ghost predicate SameCheck(r: Request, q: Request) {
    && r.tenant == q.tenant && r.subject == q.subject && r.subjectType == q.subjectType && r.resource == q.resource
    && Lower(r.resourceType) == Lower(q.resourceType) && Lower(r.action) == Lower(q.action)
    && r.attributes == q.attributes
  }

  /** Canonicity over a vocabulary of attribute keys: two requests share a cache key exactly
      when they name the same check. */
  lemma CanonicalOver(ks: iset<string>, r: Request, q: Request)
    requires NoExtension(ks) && EncodableOver(r, ks) && EncodableOver(q, ks)
    ensures Key(r) == Key(q) <==> SameCheck(r, q)
  {
    if Key(r) == Key(q) {
      PartsNulFree(r, ks);
      PartsNulFree(q, ks);
      JoinInjective(Parts(r), Parts(q));
      FieldsDetermineRequest(r, q);
      AttributesInjective(ks, r.attributes, q.attributes);
    }
  }

  /** Canonicity for attribute keys without '='. */
  lemma KeysAreCanonical(r: Request, q: Request)
    requires Encodable(r) && Encodable(q)
    ensures Key(r) == Key(q) <==> SameCheck(r, q)
  {
    PlainKeysHaveNoExtension();
    CanonicalOver(PlainKeys(), r, q);
  }

  lemma FieldsDetermineRequest(r: Request, q: Request)
    requires Parts(r) == Parts(q)
    ensures AttributeParts(r.attributes) == AttributeParts(q.attributes)
    ensures SameCheck(r, q.(attributes := r.attributes))
  {
    var p, o := Parts(r), Parts(q);
    assert p[..6] == FieldParts(r) && o[..6] == FieldParts(q);
    assert p[6..] == AttributeParts(r.attributes) && o[6..] == AttributeParts(q.attributes);
    assert FieldParts(r) == FieldParts(q);
    assert FieldParts(r)[0] == r.tenant && FieldParts(q)[0] == q.tenant;
    assert FieldParts(r)[1] == r.subject && FieldParts(q)[1] == q.subject;
    assert FieldParts(r)[2] == FieldParts(q)[2];
    assert FieldParts(r)[3] == FieldParts(q)[3];
    assert FieldParts(r)[4] == r.resource && FieldParts(q)[4] == q.resource;
    assert FieldParts(r)[5] == FieldParts(q)[5];
    TypeNameInjective(r.subjectType, q.subjectType);
  }

  /** One attribute is one part. */
  lemma OnePart(k: string, v: string)
    ensures AttributeParts(map[k := v]) == [k + "=" + v]
  {
    assert map[k := v].Keys == {k};
    SortedUnique(Sorted({k}), [k]);
  }

  lemma ExtensionCollides(r: Request, k: string, k2: string)
    requires HasPrefix(k2, k + "=")
    ensures Key(r.(attributes := map[k2 := ""])) == Key(r.(attributes := map[k := k2[|k| + 1..] + "="]))
  {
    var v := k2[|k| + 1..] + "=";
    OnePart(k2, "");
    OnePart(k, v);
    assert k2 + "=" + "" == k + "=" + v;
  }

  /** Every two requests over the vocabulary share a key exactly when they name the same check. */
  ghost predicate Canonical(ks: iset<string>) {
    forall r, q :: EncodableOver(r, ks) && EncodableOver(q, ks) ==> (Key(r) == Key(q) <==> SameCheck(r, q))
  }

  /** The key separates '=' from nothing: a vocabulary of NUL-free attribute keys is encoded
      canonically iff none of its keys starts with another one followed by '='. */
  lemma VocabularyExact(ks: iset<string>)
    requires forall k :: k in ks ==> NulFree(k)
    ensures Canonical(ks) <==> NoExtension(ks)
  {
    if NoExtension(ks) {
      forall r, q | EncodableOver(r, ks) && EncodableOver(q, ks) ensures Key(r) == Key(q) <==> SameCheck(r, q) {
        CanonicalOver(ks, r, q);
      }
    } else {
      var k, k2 :| k in ks && k2 in ks && HasPrefix(k2, k + "=");
      var r, q := ExtensionRefutes(ks, k, k2);
    }
  }

  /** A key and its extension give two different requests under one cache key. */
  lemma ExtensionRefutes(ks: iset<string>, k: string, k2: string) returns (r: Request, q: Request)
    requires k in ks && k2 in ks && HasPrefix(k2, k + "=") && NulFree(k) && NulFree(k2)
    ensures EncodableOver(r, ks) && EncodableOver(q, ks) && Key(r) == Key(q) && !SameCheck(r, q)
  {
    var base, v := Request("", "", User, "", "", "", map[]), k2[|k| + 1..] + "=";
    r, q := base.(attributes := map[k2 := ""]), base.(attributes := map[k := v]);
    ExtensionCollides(base, k, k2);
    assert NulFree(v);
    assert k2 in r.attributes && k2 !in q.attributes;
  }

  // ----- Prefixes -----

  function TenantPrefix(tenant: string): string {
    tenant + [NUL]
  }

  function SubjectPrefix(tenant: string, subject: string, t: SubjectType): string {
    tenant + [NUL] + subject + [NUL] + TypeName(t) + [NUL]
  }

  /** A key starts with its tenant, whatever the fields contain. */
  lemma KeyStartsWithTenant(r: Request)
    ensures Key(r) == r.tenant + [NUL] + Join(Parts(r)[1..])
  {
  }

  lemma LowerTypeName(t: SubjectType)
    ensures Lower(TypeName(t)) == TypeName(t)
  {
  }

  lemma KeyStartsWithSubject(r: Request)
    ensures Key(r) == SubjectPrefix(r.tenant, r.subject, r.subjectType) + Join(Parts(r)[3..])
  {
    LowerTypeName(r.subjectType);
    JoinThree(Parts(r));
  }

  lemma JoinThree(p: seq<string>)
    requires |p| > 3
    ensures Join(p) == p[0] + [NUL] + p[1] + [NUL] + p[2] + [NUL] + Join(p[3..])
  {
    assert p[1..][1..] == p[2..] && p[2..][1..] == p[3..];
    assert Join(p[1..]) == p[1] + [NUL] + Join(p[2..]);
    assert Join(p[2..]) == p[2] + [NUL] + Join(p[3..]);
  }

  /** The tenant prefix matches exactly the keys of that tenant. */
  lemma TenantPrefixExact(r: Request, tenant: string)
    requires NulFree(r.tenant) && NulFree(tenant)
    ensures HasPrefix(Key(r), TenantPrefix(tenant)) <==> r.tenant == tenant
    ensures Cut(Key(r)) == r.tenant
  {
    KeyStartsWithTenant(r);
    CutAtFirst(r.tenant, Join(Parts(r)[1..]));
    if HasPrefix(Key(r), TenantPrefix(tenant)) {
      var rest := Key(r)[|tenant| + 1..];
      assert Key(r) == tenant + [NUL] + rest;
      FirstSegment(NUL, r.tenant, Join(Parts(r)[1..]), tenant, rest);
    }
  }

  /** The subject prefix matches exactly the keys of that subject. */
  lemma SubjectPrefixExact(r: Request, tenant: string, subject: string, t: SubjectType)
    requires NulFree(r.tenant) && NulFree(r.subject) && NulFree(tenant) && NulFree(subject)
    ensures HasPrefix(Key(r), SubjectPrefix(tenant, subject, t)) <==>
            r.tenant == tenant && r.subject == subject && r.subjectType == t
  {
    KeyStartsWithSubject(r);
    if HasPrefix(Key(r), SubjectPrefix(tenant, subject, t)) {
      var rest := Key(r)[|SubjectPrefix(tenant, subject, t)|..];
      assert Key(r) == SubjectPrefix(tenant, subject, t) + rest;
      TypeNameFacts(r.subjectType);
      TypeNameFacts(t);
      LowerTypeName(r.subjectType);
      LowerTypeName(t);
      ThreeSegments(r.tenant, r.subject, TypeName(r.subjectType), Join(Parts(r)[3..]), tenant, subject, TypeName(t),
                    rest);
      TypeNameInjective(r.subjectType, t);
    }
  }
}
