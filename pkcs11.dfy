/** The part of a PKCS#11 token the two procedures use: objects made of typed
    attributes, exact-match search templates, attribute reads, object
    creation and signing, reached through a logged-in session. */
module Pkcs11 {
  import opened Wrappers
  import opened Unsigned

  /** Opaque reference to an object resident on the token. */
  type Handle = nat

  /** The CKA_* attribute types the procedures read, search by or create. */
  datatype AttributeType =
    | Class | Token | Private | Modifiable | Label | Id
    | KeyType | Modulus | PublicExponent
    | CertificateType | Trusted | Subject | Issuer | SerialNumber | Value

  /** An attribute value, by the way the library builds and reads it:
      CK_ULONG constants, CK_BBOOL flags, byte arrays and UTF-8 strings. */
  datatype AttributeValue = Number(n: nat) | Flag(b: bool) | Bytes(bytes: seq<byte>) | Text(s: string)

  datatype ObjectAttribute = ObjectAttribute(kind: AttributeType, value: AttributeValue)

  /** An attribute list as the library passes it to the token. */
  type Template = seq<ObjectAttribute>

  type Attributes = map<AttributeType, AttributeValue>

  // Object classes (CKO_*), key types (CKK_*) and certificate types (CKC_*).
  const CkoCertificate: nat := 1
  const CkoPrivateKey: nat := 3
  const CkkRsa: nat := 0
  const CkcX509: nat := 0

  // Hash-and-sign mechanisms of RSA PKCS#1 v1.5 (CKM_SHAx_RSA_PKCS).
  const CkmSha1RsaPkcs: nat := 0x06
  const CkmSha256RsaPkcs: nat := 0x40
  const CkmSha384RsaPkcs: nat := 0x41
  const CkmSha512RsaPkcs: nat := 0x42

  datatype Mechanism = Mechanism(mechanismType: nat)

  /** One request made to the token, as recorded in a session's log. */
  datatype Call =
    | GetAttributeValueCall(handle: Handle, types: seq<AttributeType>)
    | FindAllObjectsCall(template: Template)
    | CreateObjectCall(template: Template)
    | SignCall(mechanism: Mechanism, key: Handle, data: seq<byte>)

  /** What one run of a procedure returns, and the token calls it makes, in
      order. */
  datatype Outcome<T> = Outcome(result: Result<T>, calls: seq<Call>)

  /** An object matches a search template when it holds every pair of the
      template with exactly that value. */
  predicate Matches(attrs: Attributes, template: Template)
  {
    forall i :: 0 <= i < |template| ==> template[i].kind in attrs && attrs[template[i].kind] == template[i].value
  }

  /** The handles a search with `template` finds. */
  function MatchingHandles(objects: map<Handle, Attributes>, template: Template): set<Handle>
  {
    set h | h in objects && Matches(objects[h], template)
  }

  /** The attributes of an object created from `template`. */
  function ToAttributes(template: Template): Attributes
  {
    if template == [] then map[]
    else
      var last := template[|template| - 1];
      ToAttributes(template[..|template| - 1])[last.kind := last.value]
  }

  /** Creating from one more template entry adds (or overwrites) that one
      attribute. */
  lemma ToAttributesPrefix(template: Template, i: nat)
    requires i < |template|
    ensures ToAttributes(template[..i + 1]) == ToAttributes(template[..i])[template[i].kind := template[i].value]
  {
    assert template[..i + 1][..i] == template[..i];
  }

  /** The values of `types`, in that order, read from object `h`; the read
      fails when the object or one of the attributes is not there. */
  function ReadAttributes(objects: map<Handle, Attributes>, h: Handle, types: seq<AttributeType>): (r: Result<seq<AttributeValue>>)
    ensures r.Success? <==> h in objects && forall t :: t in types ==> t in objects[h]
    ensures r.Success? ==> |r.value| == |types| && forall i :: 0 <= i < |types| ==> r.value[i] == objects[h][types[i]]
    ensures r.Failure? ==> r.error == TokenFailure
  {
    if h in objects && forall t :: t in types ==> t in objects[h] then
      Success(seq(|types|, i requires 0 <= i < |types| => objects[h][types[i]]))
    else
      Failure(TokenFailure)
  }

  predicate Distinct(s: seq<Handle>)
  {
    forall i, j :: 0 <= i < j < |s| ==> s[i] != s[j]
  }

  /** The handles a list holds. */
  function Elements(s: seq<Handle>): set<Handle>
  {
    set h | h in s
  }

  /** A list without repetitions has as many elements as the set it lists. */
  lemma {:induction false} DistinctCardinality(s: seq<Handle>)
    requires Distinct(s)
    ensures |Elements(s)| == |s|
  {
    if s != [] {
      var prefix := s[..|s| - 1];
      var last := s[|s| - 1];
      assert Elements(s) == Elements(prefix) + {last};
      assert last !in Elements(prefix);
      DistinctCardinality(prefix);
    }
  }

  /** A logged-in session on a token: the token's objects, the next handle
      it will hand out, the calls made so far, and the signing operation the
      token performs inside (RSA with the hash the mechanism names). */
  class Session {
    var objects: map<Handle, Attributes>
    var nextHandle: Handle
    ghost var log: seq<Call>
    const signer: (Mechanism, Handle, seq<byte>) -> seq<byte>

    /** Every handle in use is below the next one to be handed out. */
    ghost predicate Valid()
      reads this
    {
      forall h :: h in objects ==> h < nextHandle
    }

    constructor (objects: map<Handle, Attributes>, nextHandle: Handle, signer: (Mechanism, Handle, seq<byte>) -> seq<byte>)
      requires forall h :: h in objects ==> h < nextHandle
      ensures Valid()
      ensures this.objects == objects && this.nextHandle == nextHandle && this.signer == signer && log == []
    {
      this.objects := objects;
      this.nextHandle := nextHandle;
      this.signer := signer;
      log := [];
    }

    /** C_GetAttributeValue on one object. */
    method GetAttributeValue(h: Handle, types: seq<AttributeType>) returns (r: Result<seq<AttributeValue>>)
      modifies this`log
      ensures r == ReadAttributes(objects, h, types)
      ensures log == old(log) + [GetAttributeValueCall(h, types)]
    {
      r := ReadAttributes(objects, h, types);
      log := log + [GetAttributeValueCall(h, types)];
    }

    /** C_FindObjects with `template`, run to the end: every matching
      handle, each once. */
    method FindAllObjects(template: Template) returns (found: seq<Handle>)
      modifies this`log
      ensures Distinct(found)
      ensures forall h :: h in found <==> h in MatchingHandles(objects, template)
      ensures log == old(log) + [FindAllObjectsCall(template)]
    {
      found := [];
      var rest := objects.Keys;
      while rest != {}
        invariant rest <= objects.Keys
        invariant Distinct(found)
        invariant forall h :: h in found <==> h in objects && h !in rest && Matches(objects[h], template)
        decreases rest
      {
        var h :| h in rest;
        if Matches(objects[h], template) {
          found := found + [h];
        }
        rest := rest - {h};
      }
      log := log + [FindAllObjectsCall(template)];
    }

    /** C_CreateObject: a new object under a handle not in use, nothing else
      touched. */
    method CreateObject(template: Template) returns (h: Handle)
      requires Valid()
      modifies this`objects, this`nextHandle, this`log
      ensures Valid()
      ensures h !in old(objects) && objects == old(objects)[h := ToAttributes(template)]
      ensures log == old(log) + [CreateObjectCall(template)]
    {
      h := nextHandle;
      objects := objects[h := ToAttributes(template)];
      nextHandle := nextHandle + 1;
      log := log + [CreateObjectCall(template)];
    }

    /** C_SignInit followed by C_Sign: the token signs `data` with `key`
      using `mechanism`; an unknown key handle is an error. */
    method Sign(mechanism: Mechanism, key: Handle, data: seq<byte>) returns (r: Result<seq<byte>>)
      modifies this`log
      ensures r == if key in objects then Success(signer(mechanism, key, data)) else Failure(TokenFailure)
      ensures log == old(log) + [SignCall(mechanism, key, data)]
    {
      if key in objects {
        r := Success(signer(mechanism, key, data));
      } else {
        r := Failure(TokenFailure);
      }
      log := log + [SignCall(mechanism, key, data)];
    }
  }
}
