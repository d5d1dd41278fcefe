// cia.c, getSigSize and getCertSize: the number of bytes a signature, or a
// certificate after its tag, occupies, looked up from the big-endian
// signature-type tag. An unknown tag gives 0.

module CiaTags {
  import opened Endian
  import opened Layout

  /** Bytes of signature that follow a tag of type `t`. */
  function SigSize(t: SigType): (r: nat)
  {
    match t
    case Rsa4096Sha1 | Rsa4096Sha256 => 512
    case Rsa2048Sha1 | Rsa2048Sha256 => 256
    case EcdsaSha1 | EcdsaSha256 => 60
  }

  /** Bytes of certificate that follow a tag of type `t`. */
  function CertSize(t: SigType): (r: nat)
  {
    match t
    case Rsa4096Sha1 | Rsa4096Sha256 => 1020
    case Rsa2048Sha1 | Rsa2048Sha256 => 764
    case EcdsaSha1 | EcdsaSha256 => 140
  }

  /** `getSigSize`: `sigType` is the tag as read into a host integer; it is
      converted from big-endian before the lookup. */
  function GetSigSize(h: Host, sigType: u32): (n: nat)
    ensures n == 0 <==> SigTypeOf(BeToHost(h, 4, sigType)).None?
    ensures n in {0, 60, 256, 512}
  {
    match SigTypeOf(BeToHost(h, 4, sigType))
    case Some(t) => SigSize(t)
    case None => 0
  }

  /** `getCertSize`, the same lookup into the certificate sizes. */
  function GetCertSize(h: Host, sigType: u32): (n: nat)
    ensures n == 0 <==> SigTypeOf(BeToHost(h, 4, sigType)).None?
    ensures n in {0, 140, 764, 1020}
  {
    match SigTypeOf(BeToHost(h, 4, sigType))
    case Some(t) => CertSize(t)
    case None => 0
  }

  /** The signature size named by the four tag bytes as they are in the file. */
  function WireSigSize(tag: seq<u8>): (r: nat)
    requires |tag| == 4
  {
    match SigTypeOf(BeValue(tag))
    case Some(t) => SigSize(t)
    case None => 0
  }

  /** The certificate size named by the four tag bytes as they are in the file. */
  function WireCertSize(tag: seq<u8>): (r: nat)
    requires |tag| == 4
  {
    match SigTypeOf(BeValue(tag))
    case Some(t) => CertSize(t)
    case None => 0
  }

  /** On either host, `getSigSize` of a tag read raw from the file gives the
      table entry of the tag's big-endian value: 512 for the RSA-4096 types,
      256 for RSA-2048, 60 for ECDSA, 0 for any other value. */
  lemma GetSigSizeOfFileTag(h: Host, tag: seq<u8>)
    requires |tag| == 4
    ensures GetSigSize(h, Load(h, tag)) == WireSigSize(tag)
    ensures var v := BeValue(tag);
      WireSigSize(tag) ==
        if v == 0x10000 || v == 0x10003 then 512
        else if v == 0x10001 || v == 0x10004 then 256
        else if v == 0x10002 || v == 0x10005 then 60
        else 0
  {
    BeToHostOfLoad(h, tag);
  }

  /** On either host, `getCertSize` of a tag read raw from the file gives
      1020, 764 or 140 for the same groups of tags, and 0 for any other. */
  lemma GetCertSizeOfFileTag(h: Host, tag: seq<u8>)
    requires |tag| == 4
    ensures GetCertSize(h, Load(h, tag)) == WireCertSize(tag)
    ensures var v := BeValue(tag);
      WireCertSize(tag) ==
        if v == 0x10000 || v == 0x10003 then 1020
        else if v == 0x10001 || v == 0x10004 then 764
        else if v == 0x10002 || v == 0x10005 then 140
        else 0
  {
    BeToHostOfLoad(h, tag);
  }

  /** The SHA-1 and SHA-256 variants of a key type take the same room. */
  lemma SizesIgnoreHash()
    ensures SigSize(Rsa4096Sha1) == SigSize(Rsa4096Sha256) && CertSize(Rsa4096Sha1) == CertSize(Rsa4096Sha256)
    ensures SigSize(Rsa2048Sha1) == SigSize(Rsa2048Sha256) && CertSize(Rsa2048Sha1) == CertSize(Rsa2048Sha256)
    ensures SigSize(EcdsaSha1) == SigSize(EcdsaSha256) && CertSize(EcdsaSha1) == CertSize(EcdsaSha256)
  {
  }
}
