/** Key XOR, the AEAD block framing, chunk associated data and exact decompression. */
module Cipher {
  import opened Prelude
  import opened Bits
  import opened Wire

  function XorByte(a: byte, k: byte): byte {
    assert BitXor(a, k) < 0x100 by {
      assert Pow2(8) == 0x100;
      XorFits(a, k, 8);
    }
    BitXor(a, k)
  }

  /** Every byte combined with the key repeated over the data. */
  function XorKey(data: bytes, key: bytes): (r: bytes)
    requires key != []
    ensures |r| == |data|
  {
    seq(|data|, i requires 0 <= i < |data| => XorByte(data[i], key[i % |key|]))
  }

  method XorInPlace(data: array<byte>, key: bytes)
    requires key != []
    modifies data
    ensures data[..] == XorKey(old(data[..]), key)
  {
    for i := 0 to data.Length
      invariant data[..i] == XorKey(old(data[..]), key)[..i]
      invariant data[i..] == old(data[i..])
    {
      data[i] := XorByte(data[i], key[i % |key|]);
    }
  }

  /** XOR obfuscation with the same key undoes itself. */
  lemma XorKeyTwice(data: bytes, key: bytes)
    requires key != []
    ensures XorKey(XorKey(data, key), key) == data
  {
    var once := XorKey(data, key);
    forall i | 0 <= i < |data|
      ensures XorKey(once, key)[i] == data[i]
    {
      XorCancels(data[i], key[i % |key|]);
    }
  }

  /** The derived key of an archive, if its protection uses one. */
  function AeadKeyOf(env: Env, protection: Protection, key: bytes): Option<bytes> {
    match protection
    case Xor => None
    case Aead => Some(env.deriveKey(key))
  }

  // ---- authenticated encryption ----------------------------------------------------

  /** nonce[24] || ciphertext || tag[16]; `draw` numbers the nonces of one packer. */
  function Encrypt(env: Env, plain: bytes, key: bytes, aad: bytes, draw: nat): Result<bytes> {
    match env.nonce(draw)
    case None => Err(Crypto(NonceFailed))
    case Some(nonce) =>
      match env.cipherSeal(key, nonce, plain, aad)
      case None => Err(Crypto(EncryptFailed))
      case Some(ciphertext) => Ok(nonce + ciphertext)
  }

  function Decrypt(env: Env, stored: bytes, key: bytes, aad: bytes): Result<bytes> {
    if |stored| < 24 || |stored| - 24 < 16 then Err(Crypto(TruncatedBlock))
    else
      match env.cipherOpen(key, stored[..24], stored[24..], aad)
      case None => Err(Crypto(AuthenticationFailed))
      case Some(plain) => Ok(plain)
  }

  /** A block opens under the key and associated data it was sealed with; it is 40 bytes longer. */
  lemma DecryptUndoesEncrypt(env: Env, plain: bytes, key: bytes, aad: bytes, draw: nat)
    requires env.Lawful() && Encrypt(env, plain, key, aad, draw).Ok?
    ensures var stored := Encrypt(env, plain, key, aad, draw).value;
            |stored| == |plain| + AEAD_OVERHEAD && Decrypt(env, stored, key, aad) == Ok(plain)
  {
    var nonce := env.nonce(draw).value;
    var ciphertext := env.cipherSeal(key, nonce, plain, aad).value;
    assert (nonce + ciphertext)[..24] == nonce && (nonce + ciphertext)[24..] == ciphertext;
  }

  lemma DecryptedLength(env: Env, stored: bytes, key: bytes, aad: bytes)
    requires env.Lawful() && Decrypt(env, stored, key, aad).Ok?
    ensures |stored| == |Decrypt(env, stored, key, aad).value| + AEAD_OVERHEAD
  {
  }

  function ChunkAad(index: u32): bytes {
    CHUNK_AAD_PREFIX + LE(index, 4)
  }

  /** No two chunks and no chunk and TOC share their associated data. */
  lemma ChunkAadSeparates(i: u32, j: u32)
    ensures ChunkAad(i) == ChunkAad(j) ==> i == j
    ensures ChunkAad(i) != TOC_AAD
  {
    FieldWidths();
    FromLEOfLE(i, 4);
    FromLEOfLE(j, 4);
    assert ChunkAad(i)[8..] == LE(i, 4) && ChunkAad(j)[8..] == LE(j, 4);
  }

  // ---- decompression ---------------------------------------------------------------

  /** Decompression into a buffer of exactly `n` bytes. */
  function DecompressExact(env: Env, data: bytes, n: nat, mismatch: Reason): (r: Result<bytes>)
    ensures r.Ok? ==> |r.value| == n
  {
    match env.lz4Decode(data, n)
    case None => Err(Lz4)
    case Some(decoded) => if |decoded| != n then Err(Corrupt(mismatch)) else Ok(decoded)
  }
}
