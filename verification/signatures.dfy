/** NaCl `sign` as an ideal functionality: a key pair is identified by the random
    seed it was drawn from, `Sign` attaches the signer to the message as NaCl's
    signed message does, and `Open` returns the message exactly when the signer
    matches the public key. Unforgeability is thereby assumed, not proved. */
module Signatures {
  import opened Wrappers
  import opened Hex

  datatype PublicKey = PublicKey(seed: nat)

  datatype SecretKey = SecretKey(seed: nat)

  /** A signed message: signature and message together, as `sign.Sign` returns them. */
  datatype SignedMessage = SignedMessage(signer: nat, message: seq<Byte>)

  /** `sign.GenerateKey(rand.Reader)`, with the randomness it draws given as `seed`. */
  function GenerateKey(seed: nat): (PublicKey, SecretKey)
  {
    (PublicKey(seed), SecretKey(seed))
  }

  function Sign(message: seq<Byte>, secretKey: SecretKey): SignedMessage
  {
    SignedMessage(secretKey.seed, message)
  }

  /** `sign.Open`: the signed message when the signature verifies under `publicKey`. */
  function Open(signed: SignedMessage, publicKey: PublicKey): Option<seq<Byte>>
  {
    if signed.signer == publicKey.seed then Some(signed.message) else None
  }

  /** Opening a signature with a public key succeeds, and returns the signed
      message, exactly when the key pair is the signer's. */
  lemma OpenSign(message: seq<Byte>, signerSeed: nat, verifierSeed: nat)
    ensures Open(Sign(message, GenerateKey(signerSeed).1), GenerateKey(verifierSeed).0)
            == if signerSeed == verifierSeed then Some(message) else None
  {
  }
}
