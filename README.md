# Pkcs11Interop.PkiUtils in Dafny

A model of the two procedures of Pkcs11Interop.PkiUtils. Both let an
application use an RSA key pair that never leaves a PKCS#11 token.

- `CertificateRequest.GeneratePkcs10` builds a PKCS#10 certificate request
  (RFC 2986, sections 4.1 and 4.2). It reads the public key's type, modulus
  and exponent from the token and refuses any key that is not RSA. It turns
  modulus and exponent into unsigned numbers and hands them to the library's
  RSA key constructor, which refuses a zero modulus or exponent. It picks a token hash-and-sign
  mechanism and the matching `shaXWithRSAEncryption` identifier from the hash
  choice. It builds the unsigned request body, has the token sign exactly the
  body's to-be-signed bytes, attaches that signature as a bit string and
  returns the encoded request.
- `ObjectImporter.ImportCertificate` imports an issued X.509 certificate. It
  refuses certificates without an RSA key, and the library refuses an RSA
  key with a zero modulus or exponent while extracting it. It searches the token for the RSA
  private key with the certificate's modulus and exponent, and insists on
  exactly one match. It copies that key's `CKA_LABEL` and `CKA_ID` into a
  fixed twelve-attribute certificate template and creates one new object.

The token is modelled as an in-memory object store: the class
`Pkcs11.Session` holds a map from handle to attribute map. It also keeps a
ghost log of every call made to the token (attribute read, search, creation,
signing). The signing the token does inside is an opaque function, the
session's `signer`. Parsing a distinguished name string or a certificate and
all DER encoding are done by the ASN.1/X.509 library. They are opaque
functions too, gathered in `Pkix.Codec` and passed in as a parameter.

Each procedure is a method proved against a reference function:
`Pkcs10Outcome` and `ImportOutcome` give the result and the exact list of
token calls. Lemmas state the properties of those functions.

Files:

- `wrappers.dfy`: `Option`, `Result` and the error conditions.
- `unsigned.dfy`: unsigned big-endian bytes and numbers. Reading is
  `new BigInteger(1, bytes)`; writing is `ToByteArrayUnsigned`.
- `pkcs11.dfy`: attributes, templates, exact-match search, and the session.
- `pkix.dfy`: keys, names, certificates, the PKCS#10 structures, the library
  codec, and the delay-signed request.
- `certificate_request.dfy`: the request builder.
- `object_importer.dfy`: the certificate importer.

Notes on behaviour, as the code has it:

- Both "no matching key" and "several matching keys" end in the same
  `ObjectNotFoundException`. The model has the single error `ObjectNotFound`.
- The request body gets a null attribute set (`CertificateRequest.cs:94`).
  The model records it as `None`, meaning absent, not as an empty set.
- Nothing checks that the signing mechanism and the request's signature
  algorithm agree. They agree because one switch arm picks both, and
  `SelectAlgorithm` proves that they name the same hash.
- The code has no trusted-certificate variant of the import, so none is
  modelled.
- The key search compares bytes exactly. A private key whose modulus is
  stored with a leading zero byte is not found, even though it holds the
  same number (`PaddedModulusNotFound`). The request builder, in contrast,
  reads such bytes to the right number (`LeadingZeroIgnored`).
- For the same reason, a second copy of the private key whose modulus is
  stored with a leading zero byte does not make the pairing ambiguous. The
  "exactly one match" test counts stored byte strings, not numbers, so the
  import still succeeds and pairs with the unpadded copy
  (`PaddedDuplicateNotAmbiguous`).

## Model

| member | source | states |
|---|---|---|
| `Unsigned.FromNat` | src/Pkcs11Interop.PkiUtils/ObjectImporter.cs:63-64 | The unsigned bytes of a number never start with a zero byte, and are empty exactly for zero |
| `Unsigned.ToNatFromNat` | src/Pkcs11Interop.PkiUtils/ObjectImporter.cs:63-64 | Reading back the unsigned bytes of a number gives that number |
| `Unsigned.FromNatToNat` | src/Pkcs11Interop.PkiUtils/CertificateRequest.cs:66-67 | A byte string without a leading zero, read as a number and written back, is unchanged |
| `Unsigned.ToNatPositive` | src/Pkcs11Interop.PkiUtils/CertificateRequest.cs:66-67 | Bytes with a non-zero first byte read as a positive number |
| `Unsigned.CanonicalBytesIff` | src/Pkcs11Interop.PkiUtils/ObjectImporter.cs:63-64 | For bytes without a leading zero: equal to the unsigned bytes of n if and only if their value is n |
| `Unsigned.LeadingZeroIgnored` | src/Pkcs11Interop.PkiUtils/CertificateRequest.cs:66-67 | Reading with sign 1 ignores leading zero bytes |
| `Pkcs11.ReadAttributes` | src/Pkcs11Interop.PkiUtils/CertificateRequest.cs:61 | An attribute read succeeds if and only if the object and every requested attribute exist; its values come in request order; otherwise the token error |
| `Pkcs11.ToAttributesPrefix` | src/Pkcs11Interop.PkiUtils/ObjectImporter.cs:95 | One more template entry sets exactly that attribute of the created object |
| `Pkcs11.DistinctCardinality` | src/Pkcs11Interop.PkiUtils/ObjectImporter.cs:66-67 | A handle list without repeats has as many entries as the set of handles it lists, so the count test is a test on matching objects |
| `Pkcs11.Session.GetAttributeValue` | src/Pkcs11Interop.PkiUtils/CertificateRequest.cs:61 | Returns the read of the current objects and logs one read call |
| `Pkcs11.Session.FindAllObjects` | src/Pkcs11Interop.PkiUtils/ObjectImporter.cs:66 | Returns every object matching the template, each once, and nothing else; logs one search |
| `Pkcs11.Session.CreateObject` | src/Pkcs11Interop.PkiUtils/ObjectImporter.cs:95 | Adds one object under a handle not in use; every other object is unchanged |
| `Pkcs11.Session.Sign` | src/Pkcs11Interop.PkiUtils/CertificateRequest.cs:95 | Returns the token's signature of the data with that mechanism and key, or a token error for an unknown key; logs one sign call |
| `Pkix.DelaySignedRequest.constructor` | src/Pkcs11Interop.PkiUtils/CertificateRequest.cs:94 | A new draft holds the algorithm, subject, key and attribute set it was given, and no signature |
| `Pkix.DelaySignedRequest.SignRequest` | src/Pkcs11Interop.PkiUtils/CertificateRequest.cs:96 | Attaches the given bit string as the request's signature |
| `CertificateRequest.SelectAlgorithm` | src/Pkcs11Interop.PkiUtils/CertificateRequest.cs:73-91 | Total on the four hash choices; the mechanism and the signature identifier both use the chosen hash |
| `CertificateRequest.SelectAlgorithmInjective` | src/Pkcs11Interop.PkiUtils/CertificateRequest.cs:73-91 | Different hash choices never share a mechanism or an identifier |
| `CertificateRequest.ReadRsaPublicKey` | src/Pkcs11Interop.PkiUtils/CertificateRequest.cs:55-68 | NotSupported exactly when the three attributes are readable and the key type is not CKK_RSA; InvalidKey exactly when the key is RSA and its modulus or exponent reads as zero; success exactly when the three attributes are readable, the key is RSA and modulus and exponent are byte strings that read as positive numbers, and then the key holds those numbers |
| `CertificateRequest.GeneratePkcs10` | src/Pkcs11Interop.PkiUtils/CertificateRequest.cs:53-99 | Result and token calls are those of the reference behaviour; no token object is created or changed |
| `CertificateRequest.NonRsaKeyRejectedBeforeSigning` | src/Pkcs11Interop.PkiUtils/CertificateRequest.cs:61-63 | A readable non-RSA key type gives NotSupported, and the only call made is the read of key type, modulus and exponent |
| `CertificateRequest.InvalidKeyRejectedBeforeSigning` | src/Pkcs11Interop.PkiUtils/CertificateRequest.cs:66-68 | An RSA key whose modulus or exponent reads as zero gives InvalidKey, and the only call made is the attribute read: no name parse, no sign |
| `CertificateRequest.RequestSignedOnceOverBody` | src/Pkcs11Interop.PkiUtils/CertificateRequest.cs:94-98 | For an RSA key with non-zero modulus and exponent: one read, then one sign with the selected mechanism and the private key over the to-be-signed bytes of the body (subject, decoded key, no attributes); the result encodes that body, the selected identifier and the signature as an unchanged bit string |
| `CertificateRequest.RequestCallsAreReadThenSign` | src/Pkcs11Interop.PkiUtils/CertificateRequest.cs:61-95 | Always one read first; a sign call follows if and only if an RSA key with non-zero modulus and exponent was read and the name parsed; the sign uses the private key and the chosen hash; success implies it was signed; no object is created |
| `ObjectImporter.SearchTemplateConditions` | src/Pkcs11Interop.PkiUtils/ObjectImporter.cs:60-64 | An object matches the search if and only if it is a private key, of type RSA, with exactly the unsigned bytes of the modulus and exponent |
| `ObjectImporter.SearchTemplateMatchesIff` | src/Pkcs11Interop.PkiUtils/ObjectImporter.cs:60-66 | An object matches the search if and only if it is an RSA private key whose stored modulus and exponent have no leading zero and equal the certificate's as numbers |
| `ObjectImporter.PaddedModulusNotFound` | src/Pkcs11Interop.PkiUtils/ObjectImporter.cs:63-66 | A modulus stored with a leading zero byte has the right value, but the search does not match it |
| `ObjectImporter.PaddedDuplicateNotAmbiguous` | src/Pkcs11Interop.PkiUtils/ObjectImporter.cs:63-68 | A token holding the key and a copy whose modulus is stored with a leading zero byte (same number) still gives a successful import: the copy does not count as a second match |
| `ObjectImporter.ImportCertificate` | src/Pkcs11Interop.PkiUtils/ObjectImporter.cs:47-96 | Result and token calls are those of the reference behaviour; on failure the objects are unchanged; on success exactly one new object, under a fresh returned handle, is added and nothing else changes |
| `ObjectImporter.NonRsaCertificateRejected` | src/Pkcs11Interop.PkiUtils/ObjectImporter.cs:54-56 | A certificate without an RSA key gives NotSupported before any token call |
| `ObjectImporter.InvalidCertificateKeyRejected` | src/Pkcs11Interop.PkiUtils/ObjectImporter.cs:54 | An RSA certificate key with a zero modulus or exponent gives InvalidKey before any token call |
| `ObjectImporter.AmbiguousOrMissingKeyRejected` | src/Pkcs11Interop.PkiUtils/ObjectImporter.cs:66-68 | For a valid RSA key, zero or several matching keys give ObjectNotFound after the one search, with no read and no creation |
| `ObjectImporter.ImportSucceedsIff` | src/Pkcs11Interop.PkiUtils/ObjectImporter.cs:54-77 | The import succeeds if and only if the key is RSA with non-zero modulus and exponent, exactly one private key matches, and its label and id are readable |
| `ObjectImporter.CertificateObjectAttributes` | src/Pkcs11Interop.PkiUtils/ObjectImporter.cs:80-92 | The certificate template sets exactly twelve attributes, and an object created from it holds exactly those: the six fixed ones, the label and id given, DER subject and issuer, the serial's unsigned bytes and the full encoding |
| `ObjectImporter.ImportedCertificateAttributes` | src/Pkcs11Interop.PkiUtils/ObjectImporter.cs:70-92 | After a successful import, the new object's label and id are those of the one matched private key, and its other ten attributes are the fixed and certificate-derived ones |
| `ObjectImporter.ImportedIdIsMatchingKeys` | src/Pkcs11Interop.PkiUtils/ObjectImporter.cs:60-89 | After a successful import, the new object's id is that of the only RSA private key on the token whose modulus and exponent are stored without leading zero bytes and equal the certificate's |

## Left out

- Parsing of X.509 certificates and of distinguished name strings, and all DER encoding (of names, of the request body, of the whole request). These belong to the ASN.1 library. They are opaque functions of `Pkix.Codec`; no ASN.1 encoder is modelled.
- The RSA signature and the hashing done inside the token. They are the opaque `signer` of the session. Signature validity is not claimed.
- The session life cycle: opening a session, login and logout, slot and token lookup, and key-pair generation. The test fixtures are left out too: they need a physical device and a certificate file.
- `ObjectNotFoundException` is only constructors. It is the `ObjectNotFound` error value.
- Pkcs11.Session.CreateObject: attributes a token fills in by default for attributes the template leaves out (for a certificate object, CKA_START_DATE, CKA_END_DATE, CKA_URL, CKA_CERTIFICATE_CATEGORY and others) are not modelled; the created object holds exactly the template's attributes.
- Token-side refusals beyond a missing handle or attribute: read-only session, inconsistent template, unsupported mechanism, wrong key kind, device errors. `CreateObject` always succeeds and `Sign` succeeds for any existing handle.
- The byte encodings of attribute values (CK_ULONG, CK_BBOOL, UTF-8 labels). Values are typed. A value of the wrong kind for its read (`GetValueAsUint` on a non-number, `GetValueAsString` on a non-string) is a `TokenFailure`. The label is assumed to survive the UTF-8 round trip.
- Negative certificate serial numbers, which conforming certificates do not have. The serial number is a natural number.
- Which unused handle a token hands out. The model hands out the next counter value; any unused handle would meet the contract.
- The order in which a search returns handles. Only the set and the count are modelled.
- CertificateRequest.ReadRsaPublicKey: only the positivity check of the library's RSA key constructor is modelled. Some library versions also refuse an even modulus or an even public exponent; that refusal is not modelled, because the code does not fix the library version.
- ObjectImporter.ImportSucceedsIff: the same holds for the key extracted from the certificate at ObjectImporter.cs:54; only the zero modulus or exponent refusal is modelled, not the even-number refusal of some library versions.
- The .NET `null` states of the mechanism and algorithm locals before the switch. The switch is total on the enumeration, so the model has no such state.
