/** The function-hiding inner-product functional-encryption scheme the protocol
    uses (gofe `fullysec.FHIPE`), as an ideal functionality. A master key is
    identified by the random seed it was drawn from; a derived key and a ciphertext
    record the vector they were made for and the master key that made them, so that
    `Decrypt` can be written down. The protocol's proofs cite `DecryptCorrect`;
    the definitions are transparent, so the verifier may also unfold them. */
module Fhipe {
  import opened Wrappers
  import opened Oracles

  /** `NewFHIPE(l, boundX, boundY)`: vector dimension and value bounds. */
  datatype Scheme = Scheme(vectorLength: nat, boundX: int, boundY: int)

  datatype MasterKey = MasterKey(seed: nat)

  datatype DerivedKey = DerivedKey(y: seq<int>, masterSeed: nat)

  datatype Ciphertext = Ciphertext(x: seq<int>, masterSeed: nat)

  datatype SchemeError =
    | DimensionMismatch  // ciphertext or key not of the scheme's dimension
    | ForeignKey         // ciphertext and key come from different master keys

  function NewFHIPE(vectorLength: nat, boundX: int, boundY: int): Scheme
  {
    Scheme(vectorLength, boundX, boundY)
  }

  /** `GenerateMasterKey`, with the randomness it draws given as `seed`. */
  function GenerateMasterKey(scheme: Scheme, seed: nat): MasterKey
  {
    MasterKey(seed)
  }

  /** A functional decryption key bound to the vector `y`. */
  function DeriveKey(scheme: Scheme, y: seq<int>, masterKey: MasterKey): DerivedKey
    requires |y| == scheme.vectorLength
  {
    DerivedKey(y, masterKey.seed)
  }

  function Encrypt(scheme: Scheme, x: seq<int>, masterKey: MasterKey): Ciphertext
    requires |x| == scheme.vectorLength
  {
    Ciphertext(x, masterKey.seed)
  }

  /** Recovers x·y from an encryption of x and a key for y; the integration errors
      a mismatched ciphertext or key causes are reported, not hidden. */
  function Decrypt(scheme: Scheme, c: Ciphertext, key: DerivedKey): Result<int, SchemeError>
  {
    if |c.x| != scheme.vectorLength || |key.y| != scheme.vectorLength then Err(DimensionMismatch)
    else if c.masterSeed != key.masterSeed then Err(ForeignKey)
    else Ok(Dot(c.x, key.y))
  }

  /** The scheme's contract: decrypting an encryption of v1 with a key derived for
      v2 under the same master key yields v1·v2, for any scheme of that dimension
      doing the decryption. */
  lemma DecryptCorrect(scheme: Scheme, decryptor: Scheme, v1: seq<int>, v2: seq<int>, masterKey: MasterKey)
    requires |v1| == scheme.vectorLength && |v2| == scheme.vectorLength
    requires decryptor.vectorLength == scheme.vectorLength
    ensures Decrypt(decryptor, Encrypt(scheme, v1, masterKey), DeriveKey(scheme, v2, masterKey))
            == Ok(Dot(v1, v2))
  {
  }

  /** A key derived under one master key never opens a ciphertext made under another. */
  lemma ForeignKeyRejected(scheme: Scheme, decryptor: Scheme, v1: seq<int>, v2: seq<int>, mk1: MasterKey, mk2: MasterKey)
    requires |v1| == scheme.vectorLength && |v2| == scheme.vectorLength
    requires mk1 != mk2
    ensures Decrypt(decryptor, Encrypt(scheme, v1, mk1), DeriveKey(scheme, v2, mk2)).Err?
  {
  }
}
