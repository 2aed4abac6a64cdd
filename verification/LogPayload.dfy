/** The log payload a failed scan stores in its ConfigMap (cmd/manager/logcollector_util.go
    and the sizing in cmd/manager/logcollector.go).

    Go strings are byte sequences, so contents, encodings and messages are bytes here. */
module LogPayload {
  import NodeStatus

  type byte = x: int | 0 <= x < 256

  type Bytes = seq<byte>

  const CONFIG_MAP_MAX := 1048570

  // ---------- base 64, section 4 of RFC 4648 ----------

  /** The alphabet: A-Z, a-z, 0-9, plus and slash. */
  function Char(v: int): (c: byte)
    requires 0 <= v < 64
  {
    if v < 26 then 65 + v
    else if v < 52 then 97 + (v - 26)
    else if v < 62 then 48 + (v - 52)
    else if v == 62 then 43 else 47
  }

  const PAD: byte := 61

  /** The value of a character, -1 outside the alphabet. */
  function Value(c: byte): (v: int)
    ensures -1 <= v < 64
  {
    if 65 <= c <= 90 then c - 65
    else if 97 <= c <= 122 then c - 97 + 26
    else if 48 <= c <= 57 then c - 48 + 52
    else if c == 43 then 62 else if c == 47 then 63 else -1
  }

  lemma CharValue(v: int)
    requires 0 <= v < 64
    ensures Value(Char(v)) == v && Char(v) != PAD
  {
  }

  const UPPER := "ABCDEFGHIJKLMNOPQRSTUVWXYZ"
  const LOWER := "abcdefghijklmnopqrstuvwxyz"
  const OTHER := "0123456789+/"

  lemma UpperIs(v: int)
    requires 0 <= v < 26
    ensures |UPPER| == 26 && UPPER[v] as int == 65 + v
  {
  }

  lemma LowerIs(v: int)
    requires 0 <= v < 26
    ensures |LOWER| == 26 && LOWER[v] as int == 97 + v
  {
  }

  /** The alphabet as it is written down, and the padding. */
  lemma CharIsAlphabet(v: int)
    requires 0 <= v < 64
    ensures |UPPER| == |LOWER| == 26 && |OTHER| == 12
    ensures Char(v) == (if v < 26 then UPPER[v] else if v < 52 then LOWER[v - 26] else OTHER[v - 52]) as int
    ensures PAD == '=' as int
  {
    Lengths();
    if v < 26 {
      UpperIs(v);
    } else if v < 52 {
      LowerIs(v - 26);
    } else {
      OtherIs(v - 52);
    }
  }

  lemma Lengths()
    ensures |UPPER| == |LOWER| == 26 && |OTHER| == 12
  {
  }

  lemma OtherIs(v: int)
    requires 0 <= v < 12
    ensures |OTHER| == 12 && OTHER[v] as int == if v < 10 then 48 + v else if v == 10 then 43 else 47
  {
  }

  function Encode(b: Bytes): Bytes
  {
    if b == [] then []
    else if |b| == 1 then
      [Char(b[0] / 4), Char(b[0] % 4 * 16), PAD, PAD]
    else if |b| == 2 then
      [Char(b[0] / 4), Char(b[0] % 4 * 16 + b[1] / 16), Char(b[1] % 16 * 4), PAD]
    else
      [Char(b[0] / 4), Char(b[0] % 4 * 16 + b[1] / 16), Char(b[1] % 16 * 4 + b[2] / 64), Char(b[2] % 64)]
      + Encode(b[3..])
  }

  /** Decoding of padded text; padding may only end it. */
  function Decode(s: Bytes): Bytes
  {
    if |s| < 4 then []
    else
      var v0, v1, v2, v3 := Value(s[0]), Value(s[1]), Value(s[2]), Value(s[3]);
      if v0 < 0 || v1 < 0 then []
      else if s[2] == PAD then [v0 * 4 + v1 / 16]
      else if v2 < 0 then []
      else if s[3] == PAD then [v0 * 4 + v1 / 16, v1 % 16 * 16 + v2 / 4]
      else if v3 < 0 then []
      else [v0 * 4 + v1 / 16, v1 % 16 * 16 + v2 / 4, v2 % 4 * 64 + v3] + Decode(s[4..])
  }

  /** Four values of six bits hold three bytes. */
  lemma Regroup(a: byte, b: byte, c: byte)
    ensures var v0, v1, v2, v3 := a / 4, a % 4 * 16 + b / 16, b % 16 * 4 + c / 64, c % 64;
            && 0 <= v0 < 64 && 0 <= v1 < 64 && 0 <= v2 < 64 && 0 <= v3 < 64
            && v0 * 4 + v1 / 16 == a && v1 % 16 * 16 + v2 / 4 == b && v2 % 4 * 64 + v3 == c
  {
  }

  lemma {:induction false} DecodeBlock(v0: int, v1: int, v2: int, v3: int, rest: Bytes)
    requires 0 <= v0 < 64 && 0 <= v1 < 64 && 0 <= v2 < 64 && 0 <= v3 < 64
    ensures Decode([Char(v0), Char(v1), Char(v2), Char(v3)] + rest) ==
            [v0 * 4 + v1 / 16, v1 % 16 * 16 + v2 / 4, v2 % 4 * 64 + v3] + Decode(rest)
    ensures Decode([Char(v0), Char(v1), Char(v2), PAD]) == [v0 * 4 + v1 / 16, v1 % 16 * 16 + v2 / 4]
    ensures Decode([Char(v0), Char(v1), PAD, PAD]) == [v0 * 4 + v1 / 16]
  {
    CharValue(v0);
    CharValue(v1);
    CharValue(v2);
    CharValue(v3);
    assert ([Char(v0), Char(v1), Char(v2), Char(v3)] + rest)[4..] == rest;
  }

  /** Base 64 loses nothing. */
  lemma {:induction false} DecodeEncode(b: Bytes)
    ensures Decode(Encode(b)) == b
  {
    hide Char, Value, Decode;
    if b == [] {
      DecodeNothing();
    } else {
      var b0, b1, b2 := b[0], if |b| > 1 then b[1] else 0, if |b| > 2 then b[2] else 0;
      Regroup(b0, b1, b2);
      var rest := if |b| >= 3 then b[3..] else [];
      DecodeBlock(b0 / 4, b0 % 4 * 16 + b1 / 16, b1 % 16 * 4 + b2 / 64, b2 % 64, Encode(rest));
      if |b| >= 3 {
        DecodeEncode(rest);
        assert b == [b0, b1, b2] + rest;
      }
    }
  }

  lemma DecodeNothing()
    ensures Decode([]) == []
  {
  }

  lemma {:induction false} EncodedLength(b: Bytes)
    ensures |Encode(b)| == (|b| + 2) / 3 * 4
  {
    if |b| >= 3 {
      EncodedLength(b[3..]);
    }
  }

  function Bits(c: byte): int
  {
    if c == PAD then 0 else Value(c)
  }

  /** The number four characters stand for, six bits each, first one highest; padding counts as 0. */
  function Number(s: Bytes, i: nat): int
    requires i + 4 <= |s|
  {
    ((Bits(s[i]) * 64 + Bits(s[i + 1])) * 64 + Bits(s[i + 2])) * 64 + Bits(s[i + 3])
  }

  /** The byte at a place, 0 past the end. */
  function ByteAt(b: Bytes, i: nat): byte
  {
    if i < |b| then b[i] else 0
  }

  lemma BlockIsNumber(b0: byte, b1: byte, b2: byte)
    ensures var v0, v1, v2, v3 := b0 / 4, b0 % 4 * 16 + b1 / 16, b1 % 16 * 4 + b2 / 64, b2 % 64;
            ((v0 * 64 + v1) * 64 + v2) * 64 + v3 == (b0 * 256 + b1) * 256 + b2
  {
  }

  /** Encoding as section 4 of RFC 4648 puts it: each block of four characters stands for the 24-bit
      number of its three bytes, and the characters of bytes past the end are padding. */
  lemma {:induction false} EncodedBlock(b: Bytes, k: nat)
    requires 3 * k < |b|
    ensures 4 * k + 4 <= |Encode(b)|
    ensures Number(Encode(b), 4 * k) ==
            (ByteAt(b, 3 * k) * 256 + ByteAt(b, 3 * k + 1)) * 256 + ByteAt(b, 3 * k + 2)
    ensures Encode(b)[4 * k] != PAD && Encode(b)[4 * k + 1] != PAD
    ensures Encode(b)[4 * k + 2] == PAD <==> 3 * k + 1 >= |b|
    ensures Encode(b)[4 * k + 3] == PAD <==> 3 * k + 2 >= |b|
    decreases k
  {
    hide Encode, Bits;
    if k > 0 {
      EncodedBlock(b[3..], k - 1);
      LaterChars(b, 4 * k);
      LaterChars(b, 4 * k + 1);
      LaterChars(b, 4 * k + 2);
      LaterChars(b, 4 * k + 3);
    } else {
      FirstBlock(b);
    }
  }

  lemma LaterChars(b: Bytes, j: nat)
    requires |b| >= 3 && j >= 4
    ensures |Encode(b)| == 4 + |Encode(b[3..])|
    ensures j < |Encode(b)| ==> Encode(b)[j] == Encode(b[3..])[j - 4]
  {
    hide Char;
  }

  lemma FirstBlock(b: Bytes)
    requires b != []
    ensures 4 <= |Encode(b)|
    ensures Number(Encode(b), 0) == (ByteAt(b, 0) * 256 + ByteAt(b, 1)) * 256 + ByteAt(b, 2)
    ensures Encode(b)[0] != PAD && Encode(b)[1] != PAD
    ensures Encode(b)[2] == PAD <==> |b| <= 1
    ensures Encode(b)[3] == PAD <==> |b| <= 2
  {
    var b0, b1, b2 := ByteAt(b, 0), ByteAt(b, 1), ByteAt(b, 2);
    Regroup(b0, b1, b2);
    BlockIsNumber(b0, b1, b2);
    CharValue(b0 / 4);
    CharValue(b0 % 4 * 16 + b1 / 16);
    CharValue(b1 % 16 * 4 + b2 / 64);
    CharValue(b2 % 64);
    FourChars(b);
    hide Char, Value, Encode, ByteAt;
  }

  lemma FourChars(b: Bytes)
    requires b != []
    ensures var b0, b1, b2 := ByteAt(b, 0), ByteAt(b, 1), ByteAt(b, 2);
            && 4 <= |Encode(b)|
            && Encode(b)[0] == Char(b0 / 4) && Encode(b)[1] == Char(b0 % 4 * 16 + b1 / 16)
            && Encode(b)[2] == (if |b| <= 1 then PAD else Char(b1 % 16 * 4 + b2 / 64))
            && Encode(b)[3] == (if |b| <= 2 then PAD else Char(b2 % 64))
  {
    hide Char;
  }

  // ---------- the messages ----------

  /** %d of a natural number. */
  function Decimal(n: nat): (s: Bytes)
    ensures |s| >= 1
  {
    if n < 10 then [48 + n] else Decimal(n / 10) + [48 + n % 10]
  }

  /** The number a sequence of digits stands for. */
  function DecimalValue(s: Bytes): int
  {
    if s == [] then 0 else 10 * DecimalValue(s[..|s| - 1]) + s[|s| - 1] - 48
  }

  lemma {:induction false} DecimalReads(n: nat)
    ensures DecimalValue(Decimal(n)) == n && forall c | c in Decimal(n) :: 48 <= c <= 57
  {
    var s := Decimal(n);
    if n >= 10 {
      DecimalReads(n / 10);
      assert s[..|s| - 1] == Decimal(n / 10);
    } else {
      assert s[..0] == [];
    }
  }

  function Pow10(k: nat): nat
  {
    if k == 0 then 1 else 10 * Pow10(k - 1)
  }

  lemma {:induction false} DecimalLength(n: nat, k: nat)
    requires k >= 1 && n < Pow10(k)
    ensures |Decimal(n)| <= k
    decreases k
  {
    if n >= 10 {
      assert k > 1 by { assert Pow10(1) == 10 * Pow10(0); }
      DecimalLength(n / 10, k - 1);
    }
  }

  function Ascii(s: string): Bytes
  {
    seq(|s|, i requires 0 <= i < |s| => if s[i] < '\U{100}' then s[i] as int else 63)
  }

  /** The text that tells where to find a log that does not fit. */
  function TooLarge(prefix: string, size: nat, node: Bytes): Bytes
  {
    Ascii(prefix + " is too large for a configMap (") + Decimal(size)
    + Ascii(") - fetch it from /etc/kubernetes/aide.log on node ") + node
  }

  // ---------- newLogConfigMap ----------

  predicate NeedsCompression(size: nat)
  {
    size > CONFIG_MAP_MAX
  }

  datatype Payload = Payload(data: Bytes, compressed: bool)

  /** newLogConfigMap, on the stored text and the compression mark. */
  method NewLogPayload(contents: Bytes, compressed: Bytes, node: Bytes) returns (p: Payload)
    ensures p == Stored(contents, compressed, node)
  {
    var text := contents;
    var mark := false;
    if |compressed| > 0 {
      if |compressed| > CONFIG_MAP_MAX {
        text := TooLarge("compressed AIDE log", |compressed|, node);
      } else {
        text := Encode(compressed);
      }
      mark := true;
    }
    if |text| > CONFIG_MAP_MAX {
      text := TooLarge("compressed, encoded AIDE log", |text|, node);
    }
    p := Payload(text, mark);
  }

  function Stored(contents: Bytes, compressed: Bytes, node: Bytes): Payload
  {
    var text :=
      if |compressed| == 0 then contents
      else if |compressed| > CONFIG_MAP_MAX then TooLarge("compressed AIDE log", |compressed|, node)
      else Encode(compressed);
    Payload(if |text| > CONFIG_MAP_MAX then TooLarge("compressed, encoded AIDE log", |text|, node) else text,
            |compressed| > 0)
  }

  /** What handleFailedResult uploads for a log: compressed when it must be or is configured to be. */
  function Uploaded(log: Bytes, gzip: Bytes -> Bytes, always: bool, node: Bytes): Payload
  {
    Stored(log, if NeedsCompression(|log|) || always then gzip(log) else [], node)
  }

  // ---------- what is stored ----------

  const MAX_INT := 0x7fff_ffff_ffff_ffff
  const MAX_NODE_NAME := 253

  /** Compressed logs up to this size still fit once they are encoded. */
  const MAX_ENCODABLE := 786426

  lemma MessageFits(prefix: string, size: nat, node: Bytes)
    requires |prefix| <= 40 && size <= MAX_INT && |node| <= MAX_NODE_NAME
    ensures 1 <= |TooLarge(prefix, size, node)| <= CONFIG_MAP_MAX
  {
    assert Pow10(19) > MAX_INT by {
      assert Pow10(4) == 10000;
      assert Pow10(8) == 10000 * Pow10(4);
      assert Pow10(12) == 10000 * Pow10(8);
      assert Pow10(16) == 10000 * Pow10(12);
      assert Pow10(19) == 1000 * Pow10(16);
    }
    DecimalLength(size, 19);
  }

  lemma EncodableIff(b: Bytes)
    ensures |Encode(b)| <= CONFIG_MAP_MAX <==> |b| <= MAX_ENCODABLE
  {
    EncodedLength(b);
  }

  lemma StoredFits(contents: Bytes, compressed: Bytes, node: Bytes)
    requires contents != [] && |contents| <= MAX_INT && |compressed| <= MAX_INT && |node| <= MAX_NODE_NAME
    ensures 1 <= |Stored(contents, compressed, node).data| <= CONFIG_MAP_MAX
  {
    EncodedLength(compressed);
    MessageFits("compressed AIDE log", |compressed|, node);
    MessageFits("compressed, encoded AIDE log", |contents|, node);
    if |compressed| <= CONFIG_MAP_MAX {
      MessageFits("compressed, encoded AIDE log", |Encode(compressed)|, node);
    }
  }

  /** For every non-empty log, however it compresses, the payload is non-empty and fits. */
  lemma PayloadFits(log: Bytes, gzip: Bytes -> Bytes, always: bool, node: Bytes)
    requires log != [] && |log| <= MAX_INT && |gzip(log)| <= MAX_INT && |node| <= MAX_NODE_NAME
    ensures 1 <= |Uploaded(log, gzip, always, node).data| <= CONFIG_MAP_MAX
  {
    StoredFits(log, if NeedsCompression(|log|) || always then gzip(log) else [], node);
  }

  /** Without compression the payload is the log itself. */
  lemma PlainPayload(log: Bytes, gzip: Bytes -> Bytes, node: Bytes)
    requires |log| <= 1048570
    ensures Uploaded(log, gzip, false, node) == Payload(log, false)
  {
  }

  /** With compression the payload is the encoded log exactly when the compressed size is at most
      786426 bytes, and is then decoded back to the log; otherwise it is a message. */
  lemma CompressedPayload(log: Bytes, gzip: Bytes -> Bytes, gunzip: Bytes -> Bytes, always: bool, node: Bytes)
    requires gunzip(gzip(log)) == log && gzip(log) != [] && |gzip(log)| <= MAX_INT
    requires |log| > 1048570 || always
    requires |node| <= MAX_NODE_NAME
    ensures var p := Uploaded(log, gzip, always, node);
            && p.compressed
            && (p.data == Encode(gzip(log)) <==> |gzip(log)| <= MAX_ENCODABLE)
            && (|gzip(log)| <= MAX_ENCODABLE ==> gunzip(Decode(p.data)) == log)
  {
    var z := gzip(log);
    EncodableIff(z);
    EncodedLength(z);
    DecodeEncode(z);
    MessageFits("compressed AIDE log", |z|, node);
    if |z| <= CONFIG_MAP_MAX {
      MessageFits("compressed, encoded AIDE log", |Encode(z)|, node);
    }
  }

  /** The message that takes the place of a log that does not fit: what is too large, its size, and
      the node to fetch it from. */
  lemma TooLargePayload(log: Bytes, gzip: Bytes -> Bytes, always: bool, node: Bytes)
    requires MAX_ENCODABLE < |gzip(log)| <= MAX_INT && |node| <= MAX_NODE_NAME
    requires |log| > 1048570 || always
    ensures var z := |gzip(log)|;
            Uploaded(log, gzip, always, node).data ==
              (if z > CONFIG_MAP_MAX then Ascii("compressed AIDE log" + " is too large for a configMap (") + Decimal(z)
               else Ascii("compressed, encoded AIDE log" + " is too large for a configMap (")
                    + Decimal((z + 2) / 3 * 4))
              + Ascii(") - fetch it from /etc/kubernetes/aide.log on node ") + node
  {
    var z := gzip(log);
    EncodableIff(z);
    EncodedLength(z);
    MessageFits("compressed AIDE log", |z|, node);
    hide Ascii, Decimal, Encode;
  }

  /** A changed node is never taken for a clean one: whatever the log and its compressed size,
      the ConfigMap uploaded for it is read by the operator as a Failed result with its counts,
      while the empty one of a passed scan is read as Succeeded. */
  lemma UploadIsReadAsFailed(log: Bytes, gzip: Bytes -> Bytes, always: bool, node: Bytes, m: NodeStatus.LogMap)
    requires log != [] && |log| <= MAX_INT && |gzip(log)| <= MAX_INT && |node| <= MAX_NODE_NAME
    requires m.error.None?
    ensures var up := m.(content := Uploaded(log, gzip, always, node).data);
            var r := NodeStatus.ResultOf(up);
            r.condition.Failed? && r.added == m.added && r.changed == m.changed && r.removed == m.removed
    ensures NodeStatus.ResultOf(m.(content := [])).condition.Succeeded?
  {
    PayloadFits(log, gzip, always, node);
  }
}
