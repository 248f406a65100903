/** The message of a revert, as the `Executed` event reports it: Solidity's `Error(string)` cut to a limit. */
module RevertData {
  import opened Basics

  const LEN_START: nat := 36
  const MESSAGE_START: nat := 68

  function BigEndian(b: Bytes): nat {
    if |b| == 0 then 0 else 256 * BigEndian(b[..|b| - 1]) + b[|b| - 1]
  }

  function ToBigEndian(n: nat, width: nat): (b: Bytes)
    ensures |b| == width
  {
    if width == 0 then [] else ToBigEndian(n / 256, width - 1) + [n % 256]
  }

  lemma {:induction false} BigEndianInverse(n: nat, width: nat)
    requires n < Pow256(width)
    ensures BigEndian(ToBigEndian(n, width)) == n
  {
    if width > 0 {
      BigEndianInverse(n / 256, width - 1);
      assert ToBigEndian(n, width)[..width - 1] == ToBigEndian(n / 256, width - 1);
    }
  }

  /** The event's extra data; `limit` is a 32-bit number, so no addition here can saturate. */
  function ExtraData(data: Bytes, limit: nat): Bytes {
    if |data| <= MESSAGE_START then data
    else
      var length := Min(BigEndian(data[LEN_START..MESSAGE_START]), limit);
      if |data| >= MESSAGE_START + length then data[MESSAGE_START..MESSAGE_START + length] else data
  }

  /** `Error(string)`: a selector and an offset, the length, the message, and any padding. */
  function Encoded(head: Bytes, message: Bytes, padding: Bytes): Bytes {
    head + ToBigEndian(|message|, 32) + message + padding
  }

  lemma EncodedParts(head: Bytes, message: Bytes, padding: Bytes, n: nat)
    requires |head| == LEN_START && n <= |message|
    ensures var data := Encoded(head, message, padding);
            && |data| == MESSAGE_START + |message| + |padding|
            && data[LEN_START..MESSAGE_START] == ToBigEndian(|message|, 32)
            && data[MESSAGE_START..MESSAGE_START + n] == message[..n]
  {
  }

  /** The message comes back, cut to the limit, unless nothing at all follows its length: then all of it does. */
  lemma MessageReported(head: Bytes, message: Bytes, padding: Bytes, limit: nat)
    requires |head| == LEN_START && |message| < Pow256(32)
    ensures ExtraData(Encoded(head, message, padding), limit) ==
            if message + padding == [] then Encoded(head, message, padding) else message[..Min(|message|, limit)]
  {
    BigEndianInverse(|message|, 32);
    EncodedParts(head, message, padding, Min(|message|, limit));
  }

  /** Anything else comes back whole: data too short for a message, or announcing more than is there. */
  lemma MalformedReportedWhole(data: Bytes, limit: nat)
    ensures |data| <= 68 ==> ExtraData(data, limit) == data
    ensures |data| > 68 && |data| < 68 + Min(BigEndian(data[36..68]), limit) ==> ExtraData(data, limit) == data
    ensures |data| > 68 && |data| >= 68 + Min(BigEndian(data[36..68]), limit) ==>
              |ExtraData(data, limit)| == Min(BigEndian(data[36..68]), limit) <= limit
  {
  }
}
