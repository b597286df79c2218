/** Bounded compression (crates/moonlight-bridge-protocol/src/compression.rs and its Java
    twin MoonLightCompression.java). Zstandard itself is a parameter: a pair of functions of
    which `Inverse` says all that is used. */
module Compression {
  import opened Common
  import opened Wire

  /** `decompress` takes the capacity it may fill. */
  datatype Zstd = Zstd(compress: bytes -> Option<bytes>, decompress: (bytes, nat) -> Option<bytes>)

  ghost predicate Inverse(z: Zstd) {
    forall x :: z.compress(x).Some? ==> z.decompress(z.compress(x).value, |x|) == Some(x)
  }

  datatype Codec = Plain | Zstandard

  datatype Policy = Policy(minPayload: nat, minSavings: nat, maxDecoded: nat, maxRatio: nat)

  predicate ValidPolicy(policy: Policy) {
    policy.maxDecoded != 0 && policy.maxRatio != 0
  }

  const DEFAULT_POLICY := Policy(1024, 64, 16 * 1024 * 1024, 64)

  datatype CompressionError =
    | InvalidPolicy
    | DecodedLengthTooLarge
    | DecodedLengthMismatch
    | ExpansionRatioExceeded
    | DecodedBudgetExhausted
    | CorruptPayload
    | CodecFailure

  datatype Encoded = Encoded(codec: Codec, originalLength: nat, data: bytes)

  predicate Worthwhile(policy: Policy, payload: bytes, compressed: bytes) {
    |compressed| + policy.minSavings <= |payload| && |payload| <= |compressed| * policy.maxRatio
  }

  /** `CompressionPolicy::encode`, and `encode` in Java, whose options are always valid. */
  function Encode(z: Zstd, policy: Policy, payload: bytes, codec: Codec): Result<Encoded, CompressionError> {
    if !ValidPolicy(policy) then Err(InvalidPolicy)
    else if |payload| > policy.maxDecoded then Err(DecodedLengthTooLarge)
    else if codec == Plain || |payload| < policy.minPayload then Ok(Encoded(Plain, |payload|, payload))
    else
      var compressed := z.compress(payload);
      if compressed.None? then Err(CodecFailure)
      else if Worthwhile(policy, payload, compressed.value) then Ok(Encoded(codec, |payload|, compressed.value))
      else Ok(Encoded(Plain, |payload|, payload))
  }

  /** `decode_with_reservation`: the payload and how many bytes of the `available` budget it
      keeps reserved. */
  function Decode(z: Zstd, policy: Policy, codec: Codec, data: bytes, originalLength: nat, available: nat)
    : Result<(bytes, nat), CompressionError>
  {
    if !ValidPolicy(policy) then Err(InvalidPolicy)
    else if originalLength > policy.maxDecoded then Err(DecodedLengthTooLarge)
    else if codec == Plain then
      if |data| != originalLength then Err(DecodedLengthMismatch) else Ok((data, 0))
    else if originalLength > |data| * policy.maxRatio then Err(ExpansionRatioExceeded)
    else if originalLength > available then Err(DecodedBudgetExhausted)
    else
      var decoded := z.decompress(data, originalLength);
      if decoded.None? then Err(CorruptPayload)
      else if |decoded.value| != originalLength then Err(DecodedLengthMismatch)
      else Ok((decoded.value, originalLength))
  }

  /** What a receiver needs in order to take an encoded payload back. */
  predicate Receivable(policy: Policy, e: Encoded, available: nat) {
    && ValidPolicy(policy) && e.originalLength <= policy.maxDecoded
    && (e.codec == Zstandard ==> e.originalLength <= |e.data| * policy.maxRatio && e.originalLength <= available)
  }

  /** Decoding undoes encoding exactly when the receiver's own limits admit the result,
      whatever the two policies are. */
  lemma DecodeUndoesEncode(z: Zstd, sender: Policy, receiver: Policy, payload: bytes, codec: Codec, available: nat)
    requires Inverse(z) && Encode(z, sender, payload, codec).Ok?
    ensures var e := Encode(z, sender, payload, codec).value;
      && e.originalLength == |payload| && |e.data| <= |payload|
      && (Decode(z, receiver, e.codec, e.data, e.originalLength, available).Ok? <==> Receivable(receiver, e, available))
      && (Receivable(receiver, e, available) ==>
           Decode(z, receiver, e.codec, e.data, e.originalLength, available) ==
             Ok((payload, if e.codec == Plain then 0 else |payload|)))
  {
  }

  /** The sender's ratio test implies the receiver's if the receiver is at least as generous. */
  lemma RatioTestImplied(z: Zstd, sender: Policy, receiver: Policy, payload: bytes, codec: Codec, available: nat)
    requires Encode(z, sender, payload, codec).Ok? && ValidPolicy(receiver)
    requires sender.maxRatio <= receiver.maxRatio && sender.maxDecoded <= receiver.maxDecoded
    requires |payload| <= available
    ensures Receivable(receiver, Encode(z, sender, payload, codec).value, available)
  {
    TimesMonotonic(|Encode(z, sender, payload, codec).value.data|, sender.maxRatio, receiver.maxRatio);
  }

  lemma TimesMonotonic(n: nat, a: nat, b: nat)
    requires a <= b
    ensures n * a <= n * b
  {
  }

  /** When a payload is compressed, when it stays plain, and when it is refused. */
  lemma EncodeMeans(z: Zstd, policy: Policy, payload: bytes, codec: Codec)
    ensures var e := Encode(z, policy, payload, codec);
      var tries := codec == Zstandard && |payload| >= policy.minPayload;
      && (e.Ok? <==>
           ValidPolicy(policy) && |payload| <= policy.maxDecoded && (tries ==> z.compress(payload).Some?))
      && (e.Ok? ==>
           && e.value.originalLength == |payload|
           && (e.value.codec == Zstandard <==> tries && Worthwhile(policy, payload, z.compress(payload).value))
           && e.value.data == if e.value.codec == Zstandard then z.compress(payload).value else payload)
  {
  }

  /** Whatever bytes arrive, what is decoded has the announced length, within the policy, the
      expansion ratio and the budget, and a compressed payload takes its length off the budget. */
  lemma DecodeMeans(z: Zstd, policy: Policy, codec: Codec, data: bytes, originalLength: nat, available: nat,
                    payload: bytes, reserved: nat)
    ensures Decode(z, policy, codec, data, originalLength, available) == Ok((payload, reserved)) <==>
      && Receivable(policy, Encoded(codec, originalLength, data), available) && |payload| == originalLength
      && (if codec == Plain then payload == data && reserved == 0
          else z.decompress(data, originalLength) == Some(payload) && reserved == originalLength)
  {
  }
}
