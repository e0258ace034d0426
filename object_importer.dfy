/** Import of an issued X.509 certificate into a token, paired with the RSA
    private key already on the token whose modulus and public exponent equal
    the certificate's. */
module ObjectImporter {
  import opened Wrappers
  import opened Unsigned
  import opened Pkcs11
  import opened Pkix

  /** Search template for the private key of `key`: an RSA private key whose
      modulus and exponent are the minimal unsigned bytes of the key's. */
  function SearchTemplate(key: RsaPublicKey): Template
  {
    [ ObjectAttribute(Class, Number(CkoPrivateKey)),
      ObjectAttribute(KeyType, Number(CkkRsa)),
      ObjectAttribute(Modulus, Bytes(FromNat(key.modulus))),
      ObjectAttribute(PublicExponent, Bytes(FromNat(key.publicExponent))) ]
  }

  /** The attributes of the certificate object to create, with the private
      key's label and id. */
  function CertificateTemplate(certificate: X509Certificate, keyLabel: string, id: seq<byte>, codec: Codec): Template
  {
    [ ObjectAttribute(Class, Number(CkoCertificate)),
      ObjectAttribute(Token, Flag(true)),
      ObjectAttribute(Private, Flag(false)),
      ObjectAttribute(Modifiable, Flag(true)),
      ObjectAttribute(Label, Text(keyLabel)),
      ObjectAttribute(CertificateType, Number(CkcX509)),
      ObjectAttribute(Trusted, Flag(false)),
      ObjectAttribute(Subject, Bytes(codec.encodeName(certificate.subject))),
      ObjectAttribute(Id, Bytes(id)),
      ObjectAttribute(Issuer, Bytes(codec.encodeName(certificate.issuer))),
      ObjectAttribute(SerialNumber, Bytes(FromNat(certificate.serialNumber))),
      ObjectAttribute(Value, Bytes(certificate.encoded)) ]
  }

  /** An RSA private key whose stored modulus and exponent are canonical
      unsigned byte strings with the values of `key`. */
  predicate IsPrivateKeyOf(attrs: Attributes, key: RsaPublicKey)
  {
    && Class in attrs && attrs[Class] == Number(CkoPrivateKey)
    && KeyType in attrs && attrs[KeyType] == Number(CkkRsa)
    && Modulus in attrs && attrs[Modulus].Bytes? && Canonical(attrs[Modulus].bytes)
    && ToNat(attrs[Modulus].bytes) == key.modulus
    && PublicExponent in attrs && attrs[PublicExponent].Bytes? && Canonical(attrs[PublicExponent].bytes)
    && ToNat(attrs[PublicExponent].bytes) == key.publicExponent
  }

  /** The search template's four exact-match conditions, spelt out. */
  lemma SearchTemplateConditions(attrs: Attributes, key: RsaPublicKey)
    ensures Matches(attrs, SearchTemplate(key)) <==>
      && Class in attrs && attrs[Class] == Number(CkoPrivateKey)
      && KeyType in attrs && attrs[KeyType] == Number(CkkRsa)
      && Modulus in attrs && attrs[Modulus] == Bytes(FromNat(key.modulus))
      && PublicExponent in attrs && attrs[PublicExponent] == Bytes(FromNat(key.publicExponent))
  {
    var template := SearchTemplate(key);
    if Matches(attrs, template) {
      assert template[0].kind in attrs && attrs[template[0].kind] == template[0].value;
      assert template[1].kind in attrs && attrs[template[1].kind] == template[1].value;
      assert template[2].kind in attrs && attrs[template[2].kind] == template[2].value;
      assert template[3].kind in attrs && attrs[template[3].kind] == template[3].value;
    }
  }

  /** The search finds exactly the RSA private keys whose modulus and
      exponent, read as unsigned numbers, equal the key's and are stored
      without leading zero bytes. */
  lemma SearchTemplateMatchesIff(attrs: Attributes, key: RsaPublicKey)
    ensures Matches(attrs, SearchTemplate(key)) <==> IsPrivateKeyOf(attrs, key)
  {
    SearchTemplateConditions(attrs, key);
    if Modulus in attrs && attrs[Modulus].Bytes? && Canonical(attrs[Modulus].bytes) {
      CanonicalBytesIff(attrs[Modulus].bytes, key.modulus);
    }
    if PublicExponent in attrs && attrs[PublicExponent].Bytes? && Canonical(attrs[PublicExponent].bytes) {
      CanonicalBytesIff(attrs[PublicExponent].bytes, key.publicExponent);
    }
  }

  /** A private key whose modulus is stored with a leading zero byte holds
      the same number as the certificate, yet the search does not find it. */
  lemma PaddedModulusNotFound(attrs: Attributes, key: RsaPublicKey)
    requires Modulus in attrs && attrs[Modulus] == Bytes([0] + FromNat(key.modulus))
    ensures ToNat(attrs[Modulus].bytes) == key.modulus
    ensures !Matches(attrs, SearchTemplate(key))
  {
    LeadingZeroIgnored(FromNat(key.modulus));
    ToNatFromNat(key.modulus);
    var template := SearchTemplate(key);
    var padded := [0 as byte] + FromNat(key.modulus);
    assert padded != FromNat(key.modulus) by {
      if FromNat(key.modulus) != [] {
        assert padded[0] == 0 != FromNat(key.modulus)[0];
      }
    }
    assert template[2].kind == Modulus && attrs[Modulus] != template[2].value;
  }

  /** A second copy of the private key, identical except that its modulus is
      stored with a leading zero byte, holds the same numbers but does not
      make the pairing ambiguous: the count of matches is a count of stored
      byte strings, not of numbers, so the import still succeeds. */
  lemma PaddedDuplicateNotAmbiguous(
    certificate: X509Certificate, codec: Codec, k: Handle, j: Handle, attrs: Attributes)
    requires certificate.publicKey.Rsa? && ValidRsaKey(certificate.publicKey.key) && k != j
    requires IsPrivateKeyOf(attrs, certificate.publicKey.key)
    requires Label in attrs && attrs[Label].Text? && Id in attrs && attrs[Id].Bytes?
    ensures var padded := attrs[Modulus := Bytes([0] + FromNat(certificate.publicKey.key.modulus))];
            && ToNat(padded[Modulus].bytes) == ToNat(attrs[Modulus].bytes)
            && ImportOutcome(map[k := attrs, j := padded], Some(certificate), codec).result.Success?
  {
    var key := certificate.publicKey.key;
    var padded := attrs[Modulus := Bytes([0] + FromNat(key.modulus))];
    var objects := map[k := attrs, j := padded];
    SearchTemplateMatchesIff(attrs, key);
    PaddedModulusNotFound(padded, key);
    assert MatchingHandles(objects, SearchTemplate(key)) == {k};
    ImportSucceedsIff(objects, certificate, codec);
  }

  /** Reference behaviour of ImportCertificate on a token holding `objects`,
      for the parse result `parsed` of the certificate bytes: the result is
      the template of the object to create, and the token calls made. */
  ghost function ImportOutcome(objects: map<Handle, Attributes>, parsed: Option<X509Certificate>, codec: Codec)
    : Outcome<Template>
  {
    match parsed
    case None => Outcome(Failure(MalformedInput), [])
    case Some(certificate) =>
      if !certificate.publicKey.Rsa? then Outcome(Failure(NotSupported), [])
      else if !ValidRsaKey(certificate.publicKey.key) then Outcome(Failure(InvalidKey), [])
      else
        var template := SearchTemplate(certificate.publicKey.key);
        var find := FindAllObjectsCall(template);
        var found := MatchingHandles(objects, template);
        if |found| != 1 then Outcome(Failure(ObjectNotFound), [find])
        else
          var privateKey :| privateKey in found;
          var read := GetAttributeValueCall(privateKey, [Label, Id]);
          match ReadAttributes(objects, privateKey, [Label, Id])
          case Failure(e) => Outcome(Failure(e), [find, read])
          case Success(values) =>
            if !values[0].Text? || !values[1].Bytes? then Outcome(Failure(TokenFailure), [find, read])
            else
              var created := CertificateTemplate(certificate, values[0].s, values[1].bytes, codec);
              Outcome(Success(created), [find, read, CreateObjectCall(created)])
  }

  /** A set of one element is that element alone. */
  lemma SingletonIs(s: set<Handle>, h: Handle)
    requires |s| == 1 && h in s
    ensures s == {h}
  {
    assert |s - {h}| == 0;
  }

  /** Imports `certificate` into the token and pairs it with the private key
      of the same RSA public key; returns the handle of the new object. */
  method ImportCertificate(session: Session, certificate: seq<byte>, codec: Codec) returns (r: Result<Handle>)
    requires session.Valid()
    modifies session
    ensures session.Valid()
    ensures var expected := ImportOutcome(old(session.objects), codec.parseCertificate(certificate), codec);
            && session.log == old(session.log) + expected.calls
            && (expected.result.Failure? ==> r == Failure(expected.result.error) && session.objects == old(session.objects))
            && (expected.result.Success? ==>
                  && r.Success? && r.value !in old(session.objects)
                  && session.objects == old(session.objects)[r.value := ToAttributes(expected.result.value)])
  {
    // The certificate bytes must parse as an X.509 certificate.
    var parsed := codec.parseCertificate(certificate);
    if parsed.None? {
      return Failure(MalformedInput);
    }
    var x509Certificate := parsed.value;

    // Only an RSA subject key is handled.
    if !x509Certificate.publicKey.Rsa? {
      return Failure(NotSupported);
    }
    var rsaPubKeyParams := x509Certificate.publicKey.key;
    // The library refuses RSA key material with a zero modulus or exponent
    // while it extracts the key.
    if !ValidRsaKey(rsaPubKeyParams) {
      return Failure(InvalidKey);
    }

    // Exactly one private key on the token may carry the same modulus and exponent.
    var privKeySearchTemplate := SearchTemplate(rsaPubKeyParams);
    var foundObjects := session.FindAllObjects(privKeySearchTemplate);
    DistinctCardinality(foundObjects);
    assert Elements(foundObjects) == MatchingHandles(session.objects, privKeySearchTemplate);
    if |foundObjects| != 1 {
      return Failure(ObjectNotFound);
    }
    var privKeyObjectHandle := foundObjects[0];
    SingletonIs(MatchingHandles(session.objects, privKeySearchTemplate), privKeyObjectHandle);

    // The new object takes its label and id from that private key.
    var privKeyAttributes := session.GetAttributeValue(privKeyObjectHandle, [Label, Id]);
    if privKeyAttributes.Failure? {
      return Failure(privKeyAttributes.error);
    }
    var values := privKeyAttributes.value;
    if !values[0].Text? || !values[1].Bytes? {
      return Failure(TokenFailure);
    }

    // The twelve-attribute certificate object is created in one call.
    var certificateAttributes := CertificateTemplate(x509Certificate, values[0].s, values[1].bytes, codec);
    var handle := session.CreateObject(certificateAttributes);
    r := Success(handle);
  }

  /** A certificate whose public key is not RSA is refused with NotSupported
      before the token is searched or changed. */
  lemma NonRsaCertificateRejected(objects: map<Handle, Attributes>, certificate: X509Certificate, codec: Codec)
    requires !certificate.publicKey.Rsa?
    ensures ImportOutcome(objects, Some(certificate), codec) == Outcome(Failure(NotSupported), [])
  {
  }

  /** An RSA certificate key whose modulus or exponent is zero is refused by
      the library with InvalidKey while the key is extracted, before the
      token is searched or changed. */
  lemma InvalidCertificateKeyRejected(objects: map<Handle, Attributes>, certificate: X509Certificate, codec: Codec)
    requires certificate.publicKey.Rsa?
    requires certificate.publicKey.key.modulus == 0 || certificate.publicKey.key.publicExponent == 0
    ensures ImportOutcome(objects, Some(certificate), codec) == Outcome(Failure(InvalidKey), [])
  {
  }

  /** With no matching private key, or with more than one, the import fails
      with ObjectNotFound after the one search, and nothing is created. */
  lemma AmbiguousOrMissingKeyRejected(objects: map<Handle, Attributes>, certificate: X509Certificate, codec: Codec)
    requires certificate.publicKey.Rsa? && ValidRsaKey(certificate.publicKey.key)
    requires |MatchingHandles(objects, SearchTemplate(certificate.publicKey.key))| != 1
    ensures ImportOutcome(objects, Some(certificate), codec)
            == Outcome(Failure(ObjectNotFound), [FindAllObjectsCall(SearchTemplate(certificate.publicKey.key))])
  {
  }

  /** The import creates an object exactly when the certificate parses, has
      an RSA key, exactly one private key on the token matches it, and that
      key's label and id can be read. */
  lemma ImportSucceedsIff(objects: map<Handle, Attributes>, certificate: X509Certificate, codec: Codec)
    ensures ImportOutcome(objects, Some(certificate), codec).result.Success? <==>
      && certificate.publicKey.Rsa?
      && ValidRsaKey(certificate.publicKey.key)
      && exists k :: MatchingHandles(objects, SearchTemplate(certificate.publicKey.key)) == {k}
                     && Label in objects[k] && objects[k][Label].Text?
                     && Id in objects[k] && objects[k][Id].Bytes?
  {
    if certificate.publicKey.Rsa? && ValidRsaKey(certificate.publicKey.key) {
      var found := MatchingHandles(objects, SearchTemplate(certificate.publicKey.key));
      if |found| == 1 {
        var k :| k in found;
        SingletonIs(found, k);
      }
    }
  }

  /** The object created from the certificate template holds exactly the
      twelve listed attributes, with the listed values. */
  lemma CertificateObjectAttributes(certificate: X509Certificate, keyLabel: string, id: seq<byte>, codec: Codec)
    ensures ToAttributes(CertificateTemplate(certificate, keyLabel, id, codec)) == map[
      Class := Number(CkoCertificate),
      Token := Flag(true),
      Private := Flag(false),
      Modifiable := Flag(true),
      Label := Text(keyLabel),
      CertificateType := Number(CkcX509),
      Trusted := Flag(false),
      Subject := Bytes(codec.encodeName(certificate.subject)),
      Id := Bytes(id),
      Issuer := Bytes(codec.encodeName(certificate.issuer)),
      SerialNumber := Bytes(FromNat(certificate.serialNumber)),
      Value := Bytes(certificate.encoded)]
  {
    var template := CertificateTemplate(certificate, keyLabel, id, codec);
    ToAttributesPrefix(template, 0);
    ToAttributesPrefix(template, 1);
    ToAttributesPrefix(template, 2);
    ToAttributesPrefix(template, 3);
    ToAttributesPrefix(template, 4);
    ToAttributesPrefix(template, 5);
    ToAttributesPrefix(template, 6);
    ToAttributesPrefix(template, 7);
    ToAttributesPrefix(template, 8);
    ToAttributesPrefix(template, 9);
    ToAttributesPrefix(template, 10);
    ToAttributesPrefix(template, 11);
    assert template[..0] == [] && template[..12] == template;
  }

  /** The object a successful import creates: the fixed certificate
      attributes, the names, serial number and encoding of the certificate,
      and the label and id of the one private key the search found. */
  lemma ImportedCertificateAttributes(objects: map<Handle, Attributes>, certificate: X509Certificate, codec: Codec, k: Handle)
    requires certificate.publicKey.Rsa?
    requires MatchingHandles(objects, SearchTemplate(certificate.publicKey.key)) == {k}
    requires ImportOutcome(objects, Some(certificate), codec).result.Success?
    ensures k in objects && Label in objects[k] && Id in objects[k]
    ensures objects[k][Label].Text? && objects[k][Id].Bytes?
    ensures ToAttributes(ImportOutcome(objects, Some(certificate), codec).result.value) == map[
      Class := Number(CkoCertificate),
      Token := Flag(true),
      Private := Flag(false),
      Modifiable := Flag(true),
      Label := objects[k][Label],
      CertificateType := Number(CkcX509),
      Trusted := Flag(false),
      Subject := Bytes(codec.encodeName(certificate.subject)),
      Id := objects[k][Id],
      Issuer := Bytes(codec.encodeName(certificate.issuer)),
      SerialNumber := Bytes(FromNat(certificate.serialNumber)),
      Value := Bytes(certificate.encoded)]
  {
    var values := ReadAttributes(objects, k, [Label, Id]).value;
    CertificateObjectAttributes(certificate, values[0].s, values[1].bytes, codec);
  }

  /** The pairing rule: after a successful import, the new object carries
      the id of the only RSA private key on the token whose modulus and
      exponent are stored without leading zero bytes and equal the
      certificate's. Copies stored with a leading zero byte are not counted
      (see PaddedDuplicateNotAmbiguous). */
  lemma ImportedIdIsMatchingKeys(objects: map<Handle, Attributes>, certificate: X509Certificate, codec: Codec)
    requires ImportOutcome(objects, Some(certificate), codec).result.Success?
    ensures certificate.publicKey.Rsa? && ValidRsaKey(certificate.publicKey.key)
    ensures Id in ToAttributes(ImportOutcome(objects, Some(certificate), codec).result.value)
    ensures var attrs := ToAttributes(ImportOutcome(objects, Some(certificate), codec).result.value);
      exists k :: k in objects && IsPrivateKeyOf(objects[k], certificate.publicKey.key)
                  && Id in objects[k] && attrs[Id] == objects[k][Id]
                  && forall j :: j in objects && IsPrivateKeyOf(objects[j], certificate.publicKey.key) ==> j == k
  {
    ImportSucceedsIff(objects, certificate, codec);
    var key := certificate.publicKey.key;
    var k :| MatchingHandles(objects, SearchTemplate(key)) == {k}
             && Label in objects[k] && objects[k][Label].Text?
             && Id in objects[k] && objects[k][Id].Bytes?;
    ImportedCertificateAttributes(objects, certificate, codec, k);
    assert k in MatchingHandles(objects, SearchTemplate(key));
    SearchTemplateMatchesIff(objects[k], key);
    forall j | j in objects && IsPrivateKeyOf(objects[j], key)
      ensures j == k
    {
      SearchTemplateMatchesIff(objects[j], key);
      assert j in MatchingHandles(objects, SearchTemplate(key));
    }
  }
}
