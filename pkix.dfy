/** The values the procedures exchange with the ASN.1/X.509 library: public
    keys, distinguished names, certificates, the PKCS#10 structures of
    RFC 2986 section 4, and the library's parsers and DER encoders, which are
    not modelled and are passed around as plain functions. */
module Pkix {
  import opened Wrappers
  import opened Unsigned

  /** The RSA public key material: modulus and public exponent, both as
      unsigned integers. */
  datatype RsaPublicKey = RsaPublicKey(modulus: nat, publicExponent: nat)

  /** The check the library's RSA key constructor makes before it accepts key
      material, both for a key read from the token and for the key extracted
      from a certificate: modulus and exponent must both be positive. */
  predicate ValidRsaKey(key: RsaPublicKey)
  {
    key.modulus > 0 && key.publicExponent > 0
  }

  /** The public key a certificate carries; the importer only tells RSA keys
      from all others. */
  datatype SubjectPublicKey = Rsa(key: RsaPublicKey) | OtherAlgorithm(algorithm: string)

  /** A distinguished name as an ordered list of (attribute type, value) pairs. */
  datatype X509Name = X509Name(rdns: seq<(string, string)>)

  /** The fields of a parsed X.509 certificate that the importer uses;
      `encoded` is the certificate's full DER encoding. */
  datatype X509Certificate = X509Certificate(
    subject: X509Name,
    issuer: X509Name,
    serialNumber: nat,
    publicKey: SubjectPublicKey,
    encoded: seq<byte>)

  /** An ASN.1 BIT STRING: its bytes and the number of unused bits in the last one. */
  datatype BitString = BitString(bytes: seq<byte>, padBits: nat)

  datatype RequestAttribute = RequestAttribute(attributeType: string, values: seq<seq<byte>>)

  /** CertificationRequestInfo (RFC 2986 section 4.1); `attributes` is None
      when no attribute set is given at all. */
  datatype CertificationRequestInfo = CertificationRequestInfo(
    subject: X509Name,
    subjectPublicKey: RsaPublicKey,
    attributes: Option<seq<RequestAttribute>>)

  /** CertificationRequest (RFC 2986 section 4.2); the signature algorithm is
      named by its object identifier. */
  datatype CertificationRequest = CertificationRequest(
    info: CertificationRequestInfo,
    signatureAlgorithm: string,
    signature: BitString)

  /** The library operations the procedures call but that are not modelled:
      parsing a distinguished name string and a DER certificate (None when
      the input is rejected), and DER encoding names, request bodies and
      whole requests. */
  datatype Codec = Codec(
    parseName: string -> Option<X509Name>,
    parseCertificate: seq<byte> -> Option<X509Certificate>,
    encodeName: X509Name -> seq<byte>,
    encodeInfo: CertificationRequestInfo -> seq<byte>,
    encodeRequest: CertificationRequest -> seq<byte>)

  /** A PKCS#10 request whose signature is supplied later from outside: it
      is built unsigned, tells which bytes must be signed, and is encoded
      once a signature has been attached. */
  class DelaySignedRequest {
    const signatureAlgorithm: string
    const info: CertificationRequestInfo
    var signature: Option<BitString>

    constructor (signatureAlgorithm: string, subject: X509Name, publicKey: RsaPublicKey, attributes: Option<seq<RequestAttribute>>)
      ensures this.signatureAlgorithm == signatureAlgorithm
      ensures info == CertificationRequestInfo(subject, publicKey, attributes)
      ensures signature == None
    {
      this.signatureAlgorithm := signatureAlgorithm;
      info := CertificationRequestInfo(subject, publicKey, attributes);
      signature := None;
    }

    /** The to-be-signed bytes: the encoding of the request body alone, which
      holds no signature. */
    function DataToSign(codec: Codec): seq<byte>
    {
      codec.encodeInfo(info)
    }

    method SignRequest(signature: BitString)
      modifies this
      ensures this.signature == Some(signature)
    {
      this.signature := Some(signature);
    }

    /** The encoding of the complete, signed request. */
    function Encoded(codec: Codec): seq<byte>
      reads this
      requires signature.Some?
    {
      codec.encodeRequest(CertificationRequest(info, signatureAlgorithm, signature.value))
    }
  }
}
