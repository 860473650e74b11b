/** Detached signatures over canonical documents, and hashes (documents.py, hashing.py in packages/sip-protocol/src/sip_protocol). */
module Documents {
  import opened Prelude
  import opened Json
  import opened Canonical
  import Utf8

  /** A document is a JSON object, given by its members. */
  type Document = seq<Member>

  ghost predicate ValidDocument(d: Document) {
    Valid(JObj(d))
  }

  function Unsigned(d: Document, field: string): Document {
    if d == [] then []
    else if d[0].key == field then Unsigned(d[1..], field)
    else [d[0]] + Unsigned(d[1..], field)
  }

  /** canonical_json accepts everything but the signature field; otherwise signing and verifying raise. */
  predicate Signable(d: Document, field: string) {
    Valid(JObj(Unsigned(d, field)))
  }

  function SigningBytes(d: Document, field: string): Bytes {
    CanonicalJson(JObj(Unsigned(d, field)))
  }

  /** Whether a signature by a public key fits a message. */
  type Verifier = (string, Bytes, string) -> bool

  /** An Ed25519 key pair and verifier, as an oracle. */
  datatype Scheme = Scheme(
    publicKey: string,
    sign: Bytes -> string,
    verify: Verifier
  )

  /** Verification accepts what the key pair signs. */
  ghost predicate Correct(k: Scheme) {
    forall m :: k.verify(k.publicKey, m, k.sign(m))
  }

  /** No signature of the key pair fits a second message. */
  ghost predicate Binding(k: Scheme) {
    forall m, n :: k.verify(k.publicKey, n, k.sign(m)) ==> m == n
  }

  /** A text for every byte string, and no text for two. */
  function Digits(b: Bytes): (t: string)
    ensures |t| == |b|
  {
    seq(|b|, i requires 0 <= i < |b| => b[i] as char)
  }

  lemma DigitsInjective(a: Bytes, b: Bytes)
    requires Digits(a) == Digits(b)
    ensures a == b
  {
    forall i | 0 <= i < |a| ensures a[i] == b[i] {
      assert Digits(a)[i] == Digits(b)[i];
    }
  }

  /** What is asked of signatures and hashes can be met. */
  lemma OraclesExist() returns (k: Scheme, h: Hash)
    ensures Correct(k) && Binding(k) && CollisionFree(h)
  {
    h := Digits;
    k := Scheme("", Digits, (publicKey, message, signature) => signature == Digits(message));
    forall a, b | Digits(a) == Digits(b) ensures a == b {
      DigitsInjective(a, b);
    }
  }

  function SignDocument(d: Document, k: Scheme, field: string): Document {
    Unsigned(d, field) + [Member(field, JStr(k.sign(SigningBytes(Unsigned(d, field), field))))]
  }

  /** verify_document on a dict: the fields must be texts before anything is encoded, and encoding may raise. */
  function CheckDocument(d: Json, verify: Verifier, pubkeyField: string, field: string): Check {
    var pk, sig := Field(d, pubkeyField), Field(d, field);
    if !IsText(pk) || !IsText(sig) then Fails
    else if !d.JObj? || !Signable(d.members, field) then Raises
    else if pk.JStr? && sig.JStr? && verify(pk.s, SigningBytes(d.members, field), sig.s) then Passes
    else Fails
  }

  /** Verification raises on exactly the dicts that name a key and a signature and cannot be encoded without it. */
  lemma VerificationRaises(d: Json, verify: Verifier, pubkeyField: string, field: string)
    requires Dict(d).Some?
    ensures CheckDocument(d, verify, pubkeyField, field).Raises? <==>
            && IsText(Field(d, pubkeyField)) && IsText(Field(d, field))
            && (d.JLone? || !Valid(JObj(Unsigned(Dict(d).value, field))))
    ensures d.JObj? && ValidDocument(d.members) ==> !CheckDocument(d, verify, pubkeyField, field).Raises?
  {
    if d.JObj? && ValidDocument(d.members) {
      UnsignedValid(d.members, field);
    }
  }

  // ---------------------------------------------------------------- members

  lemma {:induction false} UnsignedExact(d: Document, field: string)
    ensures forall m :: m in Unsigned(d, field) <==> m in d && m.key != field
  {
    if d != [] {
      UnsignedExact(d[1..], field);
      assert d == [d[0]] + d[1..];
    }
  }

  lemma {:induction false} UnsignedValid(d: Document, field: string)
    requires ValidDocument(d)
    ensures ValidDocument(Unsigned(d, field))
  {
    if d != [] {
      assert forall i :: 0 <= i < |d[1..]| ==> d[1..][i] == d[i + 1];
      UnsignedValid(d[1..], field);
      UnsignedExact(d[1..], field);
      var u := Unsigned(d[1..], field);
      forall i | 0 <= i < |u| ensures u[i].key != d[0].key {
        assert u[i] in d[1..];
      }
    }
  }

  lemma {:induction false} UnsignedAppend(d: Document, e: Document, field: string)
    ensures Unsigned(d + e, field) == Unsigned(d, field) + Unsigned(e, field)
  {
    if d == [] {
      assert d + e == e;
    } else {
      UnsignedAppend(d[1..], e, field);
      assert (d + e)[1..] == d[1..] + e && (d + e)[0] == d[0];
    }
  }

  lemma {:induction false} UnsignedTwice(d: Document, field: string)
    ensures Unsigned(Unsigned(d, field), field) == Unsigned(d, field)
  {
    if d != [] {
      UnsignedTwice(d[1..], field);
      if d[0].key != field {
        assert Unsigned(d, field)[1..] == Unsigned(d[1..], field);
      }
    }
  }

  lemma {:induction false} GetUnsigned(d: Document, field: string, key: string)
    ensures Get(Unsigned(d, field), key) == if key == field then None else Get(d, key)
  {
    if d != [] {
      GetUnsigned(d[1..], field, key);
      var rest := Unsigned(d[1..], field);
      assert ([d[0]] + rest)[1..] == rest;
    }
  }

  lemma {:induction false} GetAppend(d: Document, m: Member, key: string)
    ensures Get(d + [m], key) == if Get(d, key).Some? then Get(d, key) else if m.key == key then Some(m.value) else None
  {
    if d == [] {
      assert (d + [m])[1..] == [];
    } else {
      GetAppend(d[1..], m, key);
      assert (d + [m])[1..] == d[1..] + [m];
    }
  }

  lemma {:induction false} GetMember(d: Document, key: string)
    requires DistinctKeys(d)
    ensures forall v :: Get(d, key) == Some(v) <==> Member(key, v) in d
  {
    if d != [] {
      GetMember(d[1..], key);
      assert d == [d[0]] + d[1..];
    }
  }

  // ---------------------------------------------------------------- signatures

  /** Signing covers the same bytes whatever signature was there before. */
  lemma SignedBytes(d: Document, k: Scheme, field: string)
    ensures Unsigned(SignDocument(d, k, field), field) == Unsigned(d, field)
    ensures SigningBytes(SignDocument(d, k, field), field) == SigningBytes(d, field)
  {
    var sig := [Member(field, JStr(k.sign(SigningBytes(Unsigned(d, field), field))))];
    UnsignedAppend(Unsigned(d, field), sig, field);
    UnsignedTwice(d, field);
    assert sig[1..] == [];
  }

  /** Signing an already signed document gives the same document. */
  lemma ResignIgnoresOld(d: Document, k: Scheme, field: string)
    ensures SignDocument(SignDocument(d, k, field), k, field) == SignDocument(d, k, field)
  {
    SignedBytes(d, k, field);
  }

  /** What is signed verifies, when the document names the signer's key and can be signed at all. */
  lemma SignThenVerify(d: Document, k: Scheme, pubkeyField: string, field: string)
    requires Correct(k) && pubkeyField != field && Get(d, pubkeyField) == Some(JStr(k.publicKey))
    ensures CheckDocument(JObj(SignDocument(d, k, field)), k.verify, pubkeyField, field)
         == if Signable(d, field) then Passes else Raises
  {
    SignedBytes(d, k, field);
    UnsignedTwice(d, field);
    var sig := Member(field, JStr(k.sign(SigningBytes(d, field))));
    GetUnsigned(d, field, pubkeyField);
    GetUnsigned(d, field, field);
    GetAppend(Unsigned(d, field), sig, pubkeyField);
    GetAppend(Unsigned(d, field), sig, field);
  }

  /** Two documents have the same signing bytes exactly when they agree outside the signature field. */
  lemma SigningBytesExact(d: Document, e: Document, field: string)
    requires Signable(d, field) && Signable(e, field)
    ensures SigningBytes(d, field) == SigningBytes(e, field) <==> SameValue(JObj(Unsigned(d, field)), JObj(Unsigned(e, field)))
  {
    CanonicalInjective(JObj(Unsigned(d, field)), JObj(Unsigned(e, field)));
  }

  /** So a change to any other field, added, removed or altered, changes the bytes. */
  lemma TamperingShows(d: Document, e: Document, field: string, key: string)
    requires Signable(d, field) && Signable(e, field) && key != field
    requires match (Get(d, key), Get(e, key))
             case (Some(v), Some(w)) => !SameValue(v, w)
             case (None, None) => false
             case _ => true
    ensures SigningBytes(d, field) != SigningBytes(e, field)
  {
    SigningBytesExact(d, e, field);
    GetUnsigned(d, field, key);
    GetUnsigned(e, field, key);
    var u, w := Unsigned(d, field), Unsigned(e, field);
    if SameValue(JObj(u), JObj(w)) {
      SameFields(u, w, key);
    }
  }

  /** Equal objects agree on every key. */
  lemma SameFields(u: Document, w: Document, key: string)
    requires ValidDocument(u) && ValidDocument(w) && SameValue(JObj(u), JObj(w))
    ensures Get(u, key).Some? <==> Get(w, key).Some?
    ensures Get(u, key).Some? ==> SameValue(Get(u, key).value, Get(w, key).value)
  {
    GetMember(u, key);
    GetMember(w, key);
    if Get(u, key).Some? {
      FieldIn(u, w, key);
    }
    if Get(w, key).Some? {
      SameKeys(u, w);
      var m := Member(key, Get(w, key).value);
      assert m in w;
      assert m.key in Keys(u);
      var i :| 0 <= i < |u| && u[i].key == key;
      assert Member(key, u[i].value) in u;
    }
  }

  lemma FieldIn(u: Document, w: Document, key: string)
    requires ValidDocument(u) && ValidDocument(w) && SameValue(JObj(u), JObj(w)) && Get(u, key).Some?
    ensures Get(w, key).Some? && SameValue(Get(u, key).value, Get(w, key).value)
  {
    GetMember(u, key);
    GetMember(w, key);
    var v := Get(u, key).value;
    assert Member(key, v) in u;
    var i :| 0 <= i < |u| && u[i] == Member(key, v);
    var j :| 0 <= j < |w| && u[i].key == w[j].key && SameValue(u[i].value, w[j].value);
    assert Member(key, w[j].value) in w;
  }

  function Keys(d: Document): set<string> {
    set m | m in d :: m.key
  }

  lemma {:induction false} KeysCount(d: Document)
    requires DistinctKeys(d)
    ensures |Keys(d)| == |d|
  {
    if d != [] {
      KeysCount(d[1..]);
      assert d == [d[0]] + d[1..];
      assert Keys(d) == {d[0].key} + Keys(d[1..]);
      assert d[0].key !in Keys(d[1..]);
    }
  }

  lemma SameKeys(u: Document, w: Document)
    requires ValidDocument(u) && ValidDocument(w) && SameValue(JObj(u), JObj(w))
    ensures Keys(u) == Keys(w)
  {
    forall k | k in Keys(u) ensures k in Keys(w) {
      var m :| m in u && m.key == k;
      var i :| 0 <= i < |u| && u[i] == m;
      var j :| 0 <= j < |w| && u[i].key == w[j].key && SameValue(u[i].value, w[j].value);
      assert w[j] in w;
    }
    KeysCount(u);
    KeysCount(w);
    var x, y := Keys(u), Keys(w);
    assert y == x + (y - x);
    assert |y| == |x| + |y - x|;
    assert y - x == {};
  }

  /** Under a binding signature, whatever verifies at all with a signed document's signature says the same. */
  lemma VerifiedIsUntampered(d: Document, e: Json, k: Scheme, pubkeyField: string, field: string)
    requires Binding(k) && Signable(d, field)
    requires CheckDocument(e, k.verify, pubkeyField, field).Passes? && Field(e, pubkeyField) == JStr(k.publicKey)
    requires Field(e, field) == Field(JObj(SignDocument(d, k, field)), field)
    ensures e.JObj? && SameValue(JObj(Unsigned(d, field)), JObj(Unsigned(e.members, field)))
  {
    UnsignedTwice(d, field);
    GetUnsigned(d, field, field);
    GetAppend(Unsigned(d, field), Member(field, JStr(k.sign(SigningBytes(d, field)))), field);
    SigningBytesExact(d, e.members, field);
  }

  // ---------------------------------------------------------------- hashes

  /** sha256_prefixed, as an oracle. */
  type Hash = Bytes -> string

  ghost predicate CollisionFree(h: Hash) {
    forall a, b :: h(a) == h(b) ==> a == b
  }

  function RequestDocument(model: string, messages: seq<Json>): Json {
    JObj([Member("model", JStr(model)), Member("messages", JArr(messages))])
  }

  function HashRequest(h: Hash, model: string, messages: seq<Json>): string {
    h(CanonicalJson(RequestDocument(model, messages)))
  }

  function HashResponseBody(h: Hash, body: string): string {
    h(Utf8.Encode(body))
  }

  /** The text that a request hash covers. */
  lemma RequestText(model: string, messages: seq<Json>)
    ensures CanonicalText(RequestDocument(model, messages))
         == "{" + Keyed("messages", CanonicalText(JArr(messages))) + "," + Keyed("model", CanonicalText(JStr(model))) + "}"
  {
    hide Escape, Sort, Print, PrintMembers, NormalizeMembers, NormalizeItems, Normalize, RequestDocument, Keyed;
    EscapePlain("messages");
    EscapePlain("model");
    NormalRequest(model, messages);
    PrintTwo(Member("messages", Normalize(JArr(messages))), Member("model", Normalize(JStr(model))));
  }

  lemma NormalRequest(model: string, messages: seq<Json>)
    ensures Normalize(RequestDocument(model, messages))
         == JObj([Member("messages", Normalize(JArr(messages))), Member("model", Normalize(JStr(model)))])
  {
    RequestSorted(model, messages);
    hide Sort;
  }

  /** "key":value */
  function Keyed(key: string, value: string): string {
    "\"" + key + "\":" + value
  }

  lemma PrintTwo(a: Member, b: Member)
    requires Escape(a.key) == a.key && Escape(b.key) == b.key
    ensures Print(JObj([a, b])) == "{" + Keyed(a.key, Print(a.value)) + "," + Keyed(b.key, Print(b.value)) + "}"
  {
    hide Escape;
    var x, y := PrintMember(a), PrintMember(b);
    assert [a, b][1..] == [b];
    assert PrintMembers([b]) == y;
    assert PrintMembers([a, b]) == x + ("," + y);
    assert "{" + (x + ("," + y)) + "}" == "{" + x + "," + y + "}";
  }

  lemma RequestSorted(model: string, messages: seq<Json>)
    ensures Sort(NormalizeMembers(RequestDocument(model, messages).members))
         == [Member("messages", Normalize(JArr(messages))), Member("model", JStr(model))]
  {
    var a, b := Member("messages", Normalize(JArr(messages))), Member("model", JStr(model));
    assert NormalizeMembers(RequestDocument(model, messages).members) == [b, a];
    assert "model"[1..] == "odel" && "messages"[1..] == "essages";
    assert !Less("model", "messages");
    SortTwo(b, a);
  }

  lemma SortTwo(x: Member, y: Member)
    requires !Less(x.key, y.key)
    ensures Sort([x, y]) == [y, x]
  {
    hide Less;
    assert [x, y][1..] == [y] && [y][1..] == [];
    assert Insert([], y) == [y] && Insert([], x) == [x];
    assert Sort([y]) == [y];
  }

  lemma {:induction false} EscapePlain(s: string)
    requires forall i :: 0 <= i < |s| ==> 'a' <= s[i] <= 'z'
    ensures Escape(s) == s
  {
    if s != "" {
      EscapePlain(s[1..]);
      assert s == [s[0]] + s[1..];
    }
  }

  lemma SameRequests(model: string, messages: seq<Json>, model': string, messages': seq<Json>)
    ensures SameValue(RequestDocument(model, messages), RequestDocument(model', messages')) <==>
            model == model' && SameValue(JArr(messages), JArr(messages'))
  {
    var a, b := RequestDocument(model, messages).members, RequestDocument(model', messages').members;
    assert |"model"| != |"messages"|;
    assert SameValue(a[0].value, b[0].value) <==> model == model';
    if SameValue(JObj(a), JObj(b)) {
      var i :| 0 <= i < |b| && a[0].key == b[i].key && SameValue(a[0].value, b[i].value);
      var j :| 0 <= j < |b| && a[1].key == b[j].key && SameValue(a[1].value, b[j].value);
    }
    if model == model' && SameValue(a[1].value, b[1].value) {
      forall i | 0 <= i < |a|
        ensures exists j :: 0 <= j < |b| && a[i].key == b[j].key && SameValue(a[i].value, b[j].value)
      {
        assert a[i].key == b[i].key && SameValue(a[i].value, b[i].value);
      }
    }
  }

  lemma RequestValid(model: string, messages: seq<Json>)
    requires Valid(JArr(messages))
    ensures Valid(RequestDocument(model, messages))
  {
    assert |"model"| != |"messages"|;
  }

  /** Equal request hashes mean equal requests, message by message. */
  lemma RequestHashExact(h: Hash, model: string, messages: seq<Json>, model': string, messages': seq<Json>)
    requires CollisionFree(h)
    requires Valid(JArr(messages)) && Valid(JArr(messages'))
    ensures HashRequest(h, model, messages) == HashRequest(h, model', messages') <==>
            model == model' && SameValue(JArr(messages), JArr(messages'))
  {
    hide Valid, SameValue, RequestDocument, CanonicalJson;
    RequestValid(model, messages);
    RequestValid(model', messages');
    CanonicalInjective(RequestDocument(model, messages), RequestDocument(model', messages'));
    SameRequests(model, messages, model', messages');
  }

  lemma ResponseHashExact(h: Hash, body: string, body': string)
    requires CollisionFree(h)
    ensures HashResponseBody(h, body) == HashResponseBody(h, body') <==> body == body'
  {
    if HashResponseBody(h, body) == HashResponseBody(h, body') {
      Utf8.EncodeInjective(body, body');
    }
  }
}
