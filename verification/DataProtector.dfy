/** Field encryption: a random nonce in front of the sealed value, in unpadded base64url. */
module DataProtector {
  import opened Common
  import Base64

  const NONCE_SIZE: nat := 12
  const OVERHEAD: nat := 16

  type Nonce = n: Bytes | |n| == NONCE_SIZE witness seq(NONCE_SIZE, _ => 0)

  /** The AES-GCM primitive: seal(nonce, value, field) and open(nonce, sealed, field). */
  datatype Aead = Aead(
    seal: (Bytes, Bytes, string) -> Bytes,
    open: (Bytes, Bytes, string) -> Option<Bytes>)
  {
    /** The law assumed of the primitive: opening undoes sealing, and sealing adds a tag of fixed size. */
    ghost predicate Lawful() {
      forall n: Bytes, v: Bytes, f: string ::
        |n| == NONCE_SIZE ==> |seal(n, v, f)| == |v| + OVERHEAD && open(n, seal(n, v, f), f) == Some(v)
    }
  }

  function EncryptBytes(aead: Aead, nonce: Nonce, value: Bytes, field: string): Bytes {
    nonce + aead.seal(nonce, value, field)
  }

  function DecryptBytes(aead: Aead, sealed: Bytes, field: string): Option<Bytes> {
    if |sealed| < NONCE_SIZE + OVERHEAD then None
    else aead.open(sealed[..NONCE_SIZE], sealed[NONCE_SIZE..], field)
  }

  function Encrypt(aead: Aead, nonce: Nonce, value: Bytes, field: string): string {
    Base64.Encode(Base64.UrlSafe, EncryptBytes(aead, nonce, value, field))
  }

  function Decrypt(aead: Aead, value: string, field: string): Option<Bytes> {
    var sealed := Base64.Decode(Base64.UrlSafe, value);
    if sealed.None? then None else DecryptBytes(aead, sealed.value, field)
  }

  lemma BytesRoundTrip(aead: Aead, nonce: Nonce, value: Bytes, field: string)
    requires aead.Lawful()
    ensures DecryptBytes(aead, EncryptBytes(aead, nonce, value, field), field) == Some(value)
  {
    var sealed := EncryptBytes(aead, nonce, value, field);
    assert sealed[..NONCE_SIZE] == nonce && sealed[NONCE_SIZE..] == aead.seal(nonce, value, field);
  }

  /** Every byte string, the empty one included, comes back from its encrypted form. */
  lemma RoundTrip(aead: Aead, nonce: Nonce, value: Bytes, field: string)
    requires aead.Lawful()
    ensures Decrypt(aead, Encrypt(aead, nonce, value, field), field) == Some(value)
  {
    Base64.RoundTrip(Base64.UrlSafe, EncryptBytes(aead, nonce, value, field));
    BytesRoundTrip(aead, nonce, value, field);
  }

  /** The 12-byte nonce goes in front of the sealed value, and anything shorter than nonce and tag is refused. */
  lemma FramedLikeThis(aead: Aead, nonce: Nonce, value: Bytes, field: string, sealed: Bytes)
    ensures |nonce| == 12
    ensures Encrypt(aead, nonce, value, field) == Base64.Encode(Base64.UrlSafe, nonce + aead.seal(nonce, value, field))
    ensures
      DecryptBytes(aead, sealed, field) == if |sealed| < 28 then None else aead.open(sealed[..12], sealed[12..], field)
  {
  }
}
