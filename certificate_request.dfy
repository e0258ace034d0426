/** Generation of a PKCS#10 certificate request (RFC 2986) for an RSA key
    pair held on a token, with the signature computed by the token. */
module CertificateRequest {
  import opened Wrappers
  import opened Unsigned
  import opened Pkcs11
  import opened Pkix

  datatype HashAlgorithm = SHA1 | SHA256 | SHA384 | SHA512

  // Object identifiers of RFC 8017 appendix A.2.4, in dotted form.
  const Sha1WithRsaEncryption := "1.2.840.113549.1.1.5"
  const Sha256WithRsaEncryption := "1.2.840.113549.1.1.11"
  const Sha384WithRsaEncryption := "1.2.840.113549.1.1.12"
  const Sha512WithRsaEncryption := "1.2.840.113549.1.1.13"

  /** The hash a PKCS#1 v1.5 hash-and-sign mechanism applies (reference
      table, read off the PKCS#11 mechanism list). */
  function MechanismHash(mechanism: Mechanism): Option<HashAlgorithm>
  {
    if mechanism == Mechanism(CkmSha1RsaPkcs) then Some(SHA1)
    else if mechanism == Mechanism(CkmSha256RsaPkcs) then Some(SHA256)
    else if mechanism == Mechanism(CkmSha384RsaPkcs) then Some(SHA384)
    else if mechanism == Mechanism(CkmSha512RsaPkcs) then Some(SHA512)
    else None
  }

  /** The hash a shaXWithRSAEncryption identifier names (reference table,
      read off RFC 8017 appendix A.2.4). */
  function SignatureOidHash(oid: string): Option<HashAlgorithm>
  {
    if oid == Sha1WithRsaEncryption then Some(SHA1)
    else if oid == Sha256WithRsaEncryption then Some(SHA256)
    else if oid == Sha384WithRsaEncryption then Some(SHA384)
    else if oid == Sha512WithRsaEncryption then Some(SHA512)
    else None
  }

  /** The token mechanism and the request's signature algorithm for a hash
      choice: both use that same hash. */
  function SelectAlgorithm(hashAlgorithm: HashAlgorithm): (r: (Mechanism, string))
    ensures MechanismHash(r.0) == Some(hashAlgorithm)
    ensures SignatureOidHash(r.1) == Some(hashAlgorithm)
  {
    match hashAlgorithm
    case SHA1 => (Mechanism(CkmSha1RsaPkcs), Sha1WithRsaEncryption)
    case SHA256 => (Mechanism(CkmSha256RsaPkcs), Sha256WithRsaEncryption)
    case SHA384 => (Mechanism(CkmSha384RsaPkcs), Sha384WithRsaEncryption)
    case SHA512 => (Mechanism(CkmSha512RsaPkcs), Sha512WithRsaEncryption)
  }

  /** Different hash choices never share a mechanism or an identifier. */
  lemma SelectAlgorithmInjective(a: HashAlgorithm, b: HashAlgorithm)
    ensures SelectAlgorithm(a).0 == SelectAlgorithm(b).0 ==> a == b
    ensures SelectAlgorithm(a).1 == SelectAlgorithm(b).1 ==> a == b
  {
  }

  /** The public-key attributes read, in the order their values are used. */
  const PublicKeyAttributes: seq<AttributeType> := [KeyType, Modulus, PublicExponent]

  /** The public key the values of key type, modulus and exponent describe:
      a key type other than RSA is refused, modulus and exponent are read as
      unsigned big-endian numbers, and the library's key constructor refuses
      a zero modulus or exponent. */
  function DecodeRsaPublicKey(values: seq<AttributeValue>): Result<RsaPublicKey>
    requires |values| == |PublicKeyAttributes|
  {
    if !values[0].Number? then Failure(TokenFailure)
    else if values[0].n != CkkRsa then Failure(NotSupported)
    else if !values[1].Bytes? || !values[2].Bytes? then Failure(TokenFailure)
    else
      var key := RsaPublicKey(ToNat(values[1].bytes), ToNat(values[2].bytes));
      if !ValidRsaKey(key) then Failure(InvalidKey) else Success(key)
  }

  /** The RSA public key behind handle `h`: the three attributes are read
      first, then a key type other than RSA is refused, then modulus and
      exponent are read as unsigned big-endian numbers and handed to the
      library, which refuses a zero value. */
  function ReadRsaPublicKey(objects: map<Handle, Attributes>, h: Handle): (r: Result<RsaPublicKey>)
    ensures r == Failure(NotSupported) <==>
      && h in objects
      && (forall t :: t in PublicKeyAttributes ==> t in objects[h])
      && objects[h][KeyType].Number?
      && objects[h][KeyType].n != CkkRsa
    ensures r == Failure(InvalidKey) <==>
      && h in objects
      && (forall t :: t in PublicKeyAttributes ==> t in objects[h])
      && objects[h][KeyType] == Number(CkkRsa)
      && objects[h][Modulus].Bytes? && objects[h][PublicExponent].Bytes?
      && (ToNat(objects[h][Modulus].bytes) == 0 || ToNat(objects[h][PublicExponent].bytes) == 0)
    ensures r.Success? <==>
      && h in objects
      && (forall t :: t in PublicKeyAttributes ==> t in objects[h])
      && objects[h][KeyType] == Number(CkkRsa)
      && objects[h][Modulus].Bytes? && objects[h][PublicExponent].Bytes?
      && ToNat(objects[h][Modulus].bytes) > 0 && ToNat(objects[h][PublicExponent].bytes) > 0
    ensures r.Success? ==>
      && h in objects
      && KeyType in objects[h] && objects[h][KeyType] == Number(CkkRsa)
      && Modulus in objects[h] && objects[h][Modulus].Bytes?
      && PublicExponent in objects[h] && objects[h][PublicExponent].Bytes?
      && r.value == RsaPublicKey(ToNat(objects[h][Modulus].bytes), ToNat(objects[h][PublicExponent].bytes))
      && r.value.modulus > 0 && r.value.publicExponent > 0
  {
    match ReadAttributes(objects, h, PublicKeyAttributes)
    case Failure(e) => Failure(e)
    case Success(values) => DecodeRsaPublicKey(values)
  }

  /** Reference behaviour of GeneratePkcs10 on a token holding `objects` and
      signing with `signer`. */
  function Pkcs10Outcome(
    objects: map<Handle, Attributes>, signer: (Mechanism, Handle, seq<byte>) -> seq<byte>,
    publicKeyHandle: Handle, privateKeyHandle: Handle,
    subjectDistinguishedName: string, hashAlgorithm: HashAlgorithm, codec: Codec): Outcome<seq<byte>>
  {
    var read := GetAttributeValueCall(publicKeyHandle, PublicKeyAttributes);
    match ReadRsaPublicKey(objects, publicKeyHandle)
    case Failure(e) => Outcome(Failure(e), [read])
    case Success(publicKey) =>
      match codec.parseName(subjectDistinguishedName)
      case None => Outcome(Failure(MalformedInput), [read])
      case Some(subject) =>
        var (mechanism, signatureAlgorithm) := SelectAlgorithm(hashAlgorithm);
        var info := CertificationRequestInfo(subject, publicKey, None);
        var data := codec.encodeInfo(info);
        var sign := SignCall(mechanism, privateKeyHandle, data);
        if privateKeyHandle in objects then
          var signature := BitString(signer(mechanism, privateKeyHandle, data), 0);
          Outcome(Success(codec.encodeRequest(CertificationRequest(info, signatureAlgorithm, signature))), [read, sign])
        else
          Outcome(Failure(TokenFailure), [read, sign])
  }

  /** Generates a certificate request in PKCS#10 format for the key pair
      (`publicKeyHandle`, `privateKeyHandle`), signed on the token with the
      hash `hashAlgorithm`. */
  method GeneratePkcs10(
    session: Session, publicKeyHandle: Handle, privateKeyHandle: Handle,
    subjectDistinguishedName: string, hashAlgorithm: HashAlgorithm, codec: Codec)
    returns (r: Result<seq<byte>>)
    modifies session`log
    ensures session.objects == old(session.objects) && session.nextHandle == old(session.nextHandle)
    ensures var expected := Pkcs10Outcome(session.objects, session.signer, publicKeyHandle, privateKeyHandle,
                                          subjectDistinguishedName, hashAlgorithm, codec);
            r == expected.result && session.log == old(session.log) + expected.calls
  {
    // Key type, modulus and exponent come from the token in one read.
    var publicKeyAttributes := session.GetAttributeValue(publicKeyHandle, PublicKeyAttributes);
    if publicKeyAttributes.Failure? {
      return Failure(publicKeyAttributes.error);
    }
    // Refuse a non-RSA key, then decode modulus and exponent and let the
    // library check them.
    var publicKey := DecodeRsaPublicKey(publicKeyAttributes.value);
    if publicKey.Failure? {
      return Failure(publicKey.error);
    }

    // The hash choice fixes both the token mechanism and the request's algorithm.
    var (mechanism, signatureAlgorithm) := SelectAlgorithm(hashAlgorithm);

    // Build the unsigned request, have the token sign its body, attach the signature
    var subject := codec.parseName(subjectDistinguishedName);
    if subject.None? {
      return Failure(MalformedInput);
    }
    var pkcs10 := new DelaySignedRequest(signatureAlgorithm, subject.value, publicKey.value, None);
    var signature := session.Sign(mechanism, privateKeyHandle, pkcs10.DataToSign(codec));
    if signature.Failure? {
      return Failure(signature.error);
    }
    pkcs10.SignRequest(BitString(signature.value, 0));
    r := Success(pkcs10.Encoded(codec));
  }

  /** A public key whose key type is readable but not RSA is refused with
      NotSupported, and the only token call made is the attribute read. */
  lemma NonRsaKeyRejectedBeforeSigning(
    objects: map<Handle, Attributes>, signer: (Mechanism, Handle, seq<byte>) -> seq<byte>,
    publicKeyHandle: Handle, privateKeyHandle: Handle,
    subjectDistinguishedName: string, hashAlgorithm: HashAlgorithm, codec: Codec)
    requires publicKeyHandle in objects
    requires forall t :: t in PublicKeyAttributes ==> t in objects[publicKeyHandle]
    requires objects[publicKeyHandle][KeyType].Number? && objects[publicKeyHandle][KeyType].n != CkkRsa
    ensures var o := Pkcs10Outcome(objects, signer, publicKeyHandle, privateKeyHandle,
                                   subjectDistinguishedName, hashAlgorithm, codec);
            o.result == Failure(NotSupported)
            && o.calls == [GetAttributeValueCall(publicKeyHandle, PublicKeyAttributes)]
  {
  }

  /** An RSA public key whose modulus or exponent reads as zero is refused by
      the library's key constructor with InvalidKey: the subject name is not
      parsed and the token is never asked to sign. */
  lemma InvalidKeyRejectedBeforeSigning(
    objects: map<Handle, Attributes>, signer: (Mechanism, Handle, seq<byte>) -> seq<byte>,
    publicKeyHandle: Handle, privateKeyHandle: Handle,
    subjectDistinguishedName: string, hashAlgorithm: HashAlgorithm, codec: Codec)
    requires publicKeyHandle in objects
    requires forall t :: t in PublicKeyAttributes ==> t in objects[publicKeyHandle]
    requires objects[publicKeyHandle][KeyType] == Number(CkkRsa)
    requires objects[publicKeyHandle][Modulus].Bytes? && objects[publicKeyHandle][PublicExponent].Bytes?
    requires ToNat(objects[publicKeyHandle][Modulus].bytes) == 0 || ToNat(objects[publicKeyHandle][PublicExponent].bytes) == 0
    ensures var o := Pkcs10Outcome(objects, signer, publicKeyHandle, privateKeyHandle,
                                   subjectDistinguishedName, hashAlgorithm, codec);
            o.result == Failure(InvalidKey)
            && o.calls == [GetAttributeValueCall(publicKeyHandle, PublicKeyAttributes)]
  {
  }

  /** A request is produced exactly when the key is an RSA key with byte-string
      modulus and exponent that are both non-zero, the subject name parses and
      the private-key handle exists. It is then the encoding of the body (subject, decoded key, no
      attribute set) with the selected identifier and the token's signature,
      unchanged, as a bit string; the token was asked to sign once, with the
      mechanism of the same hash and the private key, over exactly the body's
      to-be-signed bytes. */
  lemma RequestSignedOnceOverBody(
    objects: map<Handle, Attributes>, signer: (Mechanism, Handle, seq<byte>) -> seq<byte>,
    publicKeyHandle: Handle, privateKeyHandle: Handle,
    subjectDistinguishedName: string, hashAlgorithm: HashAlgorithm, codec: Codec,
    modulus: seq<byte>, publicExponent: seq<byte>, subject: X509Name)
    requires publicKeyHandle in objects
    requires forall t :: t in PublicKeyAttributes ==> t in objects[publicKeyHandle]
    requires objects[publicKeyHandle][KeyType] == Number(CkkRsa)
    requires objects[publicKeyHandle][Modulus] == Bytes(modulus)
    requires objects[publicKeyHandle][PublicExponent] == Bytes(publicExponent)
    requires ToNat(modulus) > 0 && ToNat(publicExponent) > 0
    requires codec.parseName(subjectDistinguishedName) == Some(subject)
    requires privateKeyHandle in objects
    ensures var o := Pkcs10Outcome(objects, signer, publicKeyHandle, privateKeyHandle,
                                   subjectDistinguishedName, hashAlgorithm, codec);
            var info := CertificationRequestInfo(subject, RsaPublicKey(ToNat(modulus), ToNat(publicExponent)), None);
            var mechanism := SelectAlgorithm(hashAlgorithm).0;
            var signatureAlgorithm := SelectAlgorithm(hashAlgorithm).1;
            && MechanismHash(mechanism) == SignatureOidHash(signatureAlgorithm) == Some(hashAlgorithm)
            && o.calls == [GetAttributeValueCall(publicKeyHandle, PublicKeyAttributes),
                           SignCall(mechanism, privateKeyHandle, codec.encodeInfo(info))]
            && o.result == Success(codec.encodeRequest(CertificationRequest(
                 info, signatureAlgorithm, BitString(signer(mechanism, privateKeyHandle, codec.encodeInfo(info)), 0))))
  {
  }

  /** Whatever happens, the token is asked to sign at most once, only after
      an RSA key was read, and is never asked to create an object. */
  lemma RequestCallsAreReadThenSign(
    objects: map<Handle, Attributes>, signer: (Mechanism, Handle, seq<byte>) -> seq<byte>,
    publicKeyHandle: Handle, privateKeyHandle: Handle,
    subjectDistinguishedName: string, hashAlgorithm: HashAlgorithm, codec: Codec)
    ensures var o := Pkcs10Outcome(objects, signer, publicKeyHandle, privateKeyHandle,
                                   subjectDistinguishedName, hashAlgorithm, codec);
            && 1 <= |o.calls| <= 2
            && o.calls[0] == GetAttributeValueCall(publicKeyHandle, PublicKeyAttributes)
            && (|o.calls| == 2 <==> ReadRsaPublicKey(objects, publicKeyHandle).Success?
                                    && codec.parseName(subjectDistinguishedName).Some?)
            && (|o.calls| == 2 ==> o.calls[1].SignCall? && o.calls[1].key == privateKeyHandle
                                   && MechanismHash(o.calls[1].mechanism) == Some(hashAlgorithm))
            && (o.result.Success? ==> |o.calls| == 2)
  {
  }
}
