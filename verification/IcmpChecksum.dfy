/** The ICMP checksum and the echo packets carrying it (tools/icmp_probe_helper.c),
    against the Internet checksum of sections 1 and 2 of RFC 1071. */
module Checksum {

  /** Bytes, words and the 32-bit accumulator are unsigned and of fixed width. */
  type byte = x: int | 0 <= x < 0x100
  type word = x: int | 0 <= x < 0x10000
  type uint32 = x: int | 0 <= x < 0x1_0000_0000

  datatype ByteOrder = Little | Big

  /** A 16-bit load from memory. */
  function Load(first: byte, second: byte, order: ByteOrder): word {
    if order.Little? then first + 0x100 * second else 0x100 * first + second
  }

  function FirstByte(w: word, order: ByteOrder): byte { if order.Little? then w % 0x100 else w / 0x100 }

  function SecondByte(w: word, order: ByteOrder): byte { if order.Little? then w / 0x100 else w % 0x100 }

  /** The words of a packet; an odd last byte counts as itself. */
  function WordsOf(p: seq<byte>, order: ByteOrder): (ws: seq<word>)
    ensures |ws| == (|p| + 1) / 2
  {
    seq((|p| + 1) / 2, i requires 0 <= i < (|p| + 1) / 2 =>
      if 2 * i + 1 < |p| then Load(p[2 * i], p[2 * i + 1], order) else p[2 * i])
  }

  // ----- The reference: section 1 of RFC 1071 -----

  /** The words RFC 1071 adds up, as a machine of this byte order loads them: an odd last byte
      is followed by a zero byte. */
  function RfcWords(p: seq<byte>, order: ByteOrder): (ws: seq<word>)
    ensures |ws| == (|p| + 1) / 2
  {
    seq((|p| + 1) / 2, i requires 0 <= i < (|p| + 1) / 2 =>
      Load(p[2 * i], if 2 * i + 1 < |p| then p[2 * i + 1] else 0, order))
  }

  /** Addition with end-around carry. */
  function OnesAdd(a: word, b: word): word { if a + b < 0x10000 then a + b else a + b - 0xFFFF }

  function OnesSum(ws: seq<word>): word {
    if ws == [] then 0 else OnesAdd(OnesSum(ws[..|ws| - 1]), ws[|ws| - 1])
  }

  /** RFC 1071's checksum, as a machine of this byte order computes it. */
  function RfcChecksum(p: seq<byte>, order: ByteOrder): word { 0xFFFF - OnesSum(RfcWords(p, order)) }

  /** A word by the two bytes it is stored as. */
  function OnWire(w: word, order: ByteOrder): word { Load(FirstByte(w, order), SecondByte(w, order), Big) }

  // ----- What the code computes -----

  function Sum(ws: seq<word>): nat {
    if ws == [] then 0 else Sum(ws[..|ws| - 1]) + ws[|ws| - 1]
  }

  /** The two folds of the carries, and the complement of the low word. */
  function Finish(sum: uint32): word {
    var once := sum / 0x10000 + sum % 0x10000;
    var twice := (once + once / 0x10000) % 0x1_0000_0000;
    0xFFFF - twice % 0x10000
  }

  /** The checksum of a packet: its word sum in 32-bit arithmetic, folded and complemented. */
  function ChecksumOf(p: seq<byte>, order: ByteOrder): word {
    Finish(Sum(WordsOf(p, order)) % 0x1_0000_0000)
  }

  // ----- Arithmetic of the sums -----

  /** The word a non-negative sum stands for in one's complement: 0 only for 0 itself. */
  function Residue(s: nat): word { if s == 0 then 0 else (s - 1) % 0xFFFF + 1 }

  lemma ResidueOf(k: nat, r: nat)
    requires 1 <= r <= 0xFFFF
    ensures Residue(k * 0xFFFF + r) == r
  {
  }

  /** After one fold at most one more carry is left, and the second fold adds it. */
  lemma FoldedTwice(sum: uint32, once: nat)
    requires once == sum / 0x10000 + sum % 0x10000
    ensures Finish(sum) == 0xFFFF - if once >= 0x10000 then once - 0xFFFF else once
  {
    assert once < 0x20000;
    assert once / 0x10000 == if once >= 0x10000 then 1 else 0;
  }

  /** Two folds suffice for any 32-bit sum: the result is the complement of its residue. */
  lemma TwoFoldsSuffice(sum: uint32)
    ensures Finish(sum) == 0xFFFF - Residue(sum)
  {
    var hi := sum / 0x10000;
    var once := hi + sum % 0x10000;
    FoldedTwice(sum, once);
    if once >= 0x10000 {
      assert sum == (hi + 1) * 0xFFFF + (once - 0xFFFF);
      ResidueOf(hi + 1, once - 0xFFFF);
    } else if once > 0 {
      assert sum == hi * 0xFFFF + once;
      ResidueOf(hi, once);
    }
  }

  lemma ResidueAdds(s: nat, w: word)
    ensures OnesAdd(Residue(s), w) == Residue(s + w)
  {
    if s > 0 {
      var k, r := (s - 1) / 0xFFFF, Residue(s);
      assert s == k * 0xFFFF + r;
      if r + w <= 0xFFFF {
        ResidueOf(k, r + w);
      } else {
        ResidueOf(k + 1, r + w - 0xFFFF);
      }
    } else if w > 0 {
      ResidueOf(0, w);
    }
  }

  /** What is missing from a 32-bit accumulator: `a` wraps, each worth 1 modulo 65535, and `e`
      that was never added. Nothing has changed exactly when they come to a multiple of 65535
      and the accumulator does not show 0 for it. */
  lemma MissingResidue(a: nat, b: uint32, e: nat)
    ensures Residue(a * 0x1_0000_0000 + b + e) == Residue(b) <==> (a + e) % 0xFFFF == 0 && (a + e == 0 || b != 0)
  {
    if b > 0 {
      var k, r := (b - 1) / 0xFFFF, Residue(b);
      var m, d := (a + e) / 0xFFFF, (a + e) % 0xFFFF;
      assert b == k * 0xFFFF + r && a + e == m * 0xFFFF + d;
      assert a * 0x1_0000_0000 + b + e == (a * 65537 + k + m) * 0xFFFF + (d + r);
      if d + r <= 0xFFFF {
        ResidueOf(a * 65537 + k + m, d + r);
      } else {
        ResidueOf(a * 65537 + k + m + 1, d + r - 0xFFFF);
      }
    }
  }

  /** Completing a 32-bit sum to a multiple of 65535 cannot wrap it, because the largest
      32-bit number is itself such a multiple. */
  lemma ComplementCompletes(s: uint32, c: word)
    requires c == 0xFFFF - Residue(s)
    ensures s + c < 0x1_0000_0000 && Residue(s + c) == 0xFFFF
  {
    if s == 0 {
      ResidueOf(0, 0xFFFF);
    } else {
      var k := (s - 1) / 0xFFFF;
      assert s + c == k * 0xFFFF + 0xFFFF;
      ResidueOf(k, 0xFFFF);
    }
  }

  lemma ShiftedResidue(s: nat, d: int)
    requires Residue(s) == 0xFFFF && -0xFFFF <= d <= 0xFFFF && s + d >= 0
    ensures Residue(s + d) == 0xFFFF <==> s + d != 0 && (d == 0 || d == 0xFFFF || d == -0xFFFF)
  {
    var k := (s - 1) / 0xFFFF;
    assert s == k * 0xFFFF + 0xFFFF;
    if d > 0 {
      ResidueOf(k + 1, d);
    } else if d < 0 && s + d > 0 {
      if d == -0xFFFF {
        ResidueOf(k - 1, 0xFFFF);
      } else {
        ResidueOf(k, 0xFFFF + d);
      }
    }
  }

  // ----- Laws of the checksum -----

  lemma ChecksumIsComplement(p: seq<byte>, order: ByteOrder)
    ensures ChecksumOf(p, order) == 0xFFFF - Residue(Sum(WordsOf(p, order)) % 0x1_0000_0000)
  {
    TwoFoldsSuffice(Sum(WordsOf(p, order)) % 0x1_0000_0000);
  }

  /** Deferring the carries changes nothing: RFC 1071's sum is the residue of the plain sum. */
  lemma {:induction false} OnesSumIsResidue(ws: seq<word>)
    ensures OnesSum(ws) == Residue(Sum(ws))
  {
    if ws != [] {
      OnesSumIsResidue(ws[..|ws| - 1]);
      ResidueAdds(Sum(ws[..|ws| - 1]), ws[|ws| - 1]);
    }
  }

  lemma {:induction false} SumBound(ws: seq<word>)
    ensures Sum(ws) <= |ws| * 0xFFFF
  {
    if ws != [] {
      SumBound(ws[..|ws| - 1]);
    }
  }

  /** What the code leaves out of RFC 1071's sum: it adds an odd last byte as a word of its own,
      which in big-endian order is 255 times the byte too little. */
  function Omitted(p: seq<byte>, order: ByteOrder): (e: nat)
    ensures e <= 255 * 255
    ensures e == 0 <==> |p| % 2 == 0 || order.Little? || p[|p| - 1] == 0
  {
    if |p| % 2 == 1 && order.Big? then
      var last: int := p[|p| - 1];
      255 * last
    else 0
  }

  lemma RfcSum(p: seq<byte>, order: ByteOrder)
    ensures Sum(RfcWords(p, order)) == Sum(WordsOf(p, order)) + Omitted(p, order)
  {
    var ws, rs := WordsOf(p, order), RfcWords(p, order);
    if |p| % 2 == 0 {
      assert ws == rs;
    } else {
      var n := |ws| - 1;
      assert ws[..n] == rs[..n];
      assert ws[n] == p[|p| - 1] && rs[n] == Load(p[|p| - 1], 0, order);
    }
  }

  /** The checksum is RFC 1071's exactly when what the code loses, by wraps of the accumulator
      and by its reading of an odd last byte, is harmless ... */
  lemma ChecksumIsRfc1071(p: seq<byte>, order: ByteOrder)
    ensures var s := Sum(WordsOf(p, order));
            var lost := s / 0x1_0000_0000 + Omitted(p, order);
            ChecksumOf(p, order) == RfcChecksum(p, order) <==>
            lost % 0xFFFF == 0 && (lost == 0 || s % 0x1_0000_0000 != 0)
  {
    var s := Sum(WordsOf(p, order));
    ChecksumIsComplement(p, order);
    OnesSumIsResidue(RfcWords(p, order));
    RfcSum(p, order);
    MissingResidue(s / 0x1_0000_0000, s % 0x1_0000_0000, Omitted(p, order));
  }

  /** ... and a packet of at most 65537 words never wraps it, so that only the odd byte matters:
      on a big-endian machine such a packet of odd length has RFC 1071's checksum exactly when
      its last byte is 0, and every other one has it. */
  lemma ShortPacketsDoNotWrap(p: seq<byte>, order: ByteOrder)
    requires |p| <= 131074
    ensures Sum(WordsOf(p, order)) < 0x1_0000_0000
    ensures ChecksumOf(p, order) == 0xFFFF - OnesSum(WordsOf(p, order))
    ensures ChecksumOf(p, order) == RfcChecksum(p, order) <==>
            |p| % 2 == 0 || order.Little? || p[|p| - 1] == 0
  {
    var s := ShortSum(p, order);
    TwoFoldsSuffice(s);
    OnesSumIsResidue(WordsOf(p, order));
    ChecksumIsRfc1071(p, order);
    SmallLoss(s, Omitted(p, order));
  }

  lemma SmallLoss(s: uint32, e: nat)
    requires e <= 255 * 255
    ensures s / 0x1_0000_0000 == 0 && (e % 0xFFFF == 0 <==> e == 0)
  {
  }

  // The byte order of the machine.

  /** The sum of the high bytes: in big-endian order, of the bytes at even offsets. */
  function HighBytes(ws: seq<word>): nat {
    if ws == [] then 0 else HighBytes(ws[..|ws| - 1]) + ws[|ws| - 1] / 0x100
  }

  function Swapped(w: word): word { w % 0x100 * 0x100 + w / 0x100 }

  lemma {:induction false} SwappedSum(big: seq<word>, little: seq<word>)
    requires |big| == |little| && forall i | 0 <= i < |big| :: little[i] == Swapped(big[i])
    ensures HighBytes(big) * 0x100 <= Sum(big)
    ensures Sum(little) == 0x100 * Sum(big) - 0xFFFF * HighBytes(big)
  {
    if big != [] {
      var n := |big| - 1;
      SwappedSum(big[..n], little[..n]);
      var w: int, swapped: int := big[n], little[n];
      assert swapped == 0x100 * w - 0xFFFF * (w / 0x100);
    }
  }

  /** Multiplying by 256 modulo 65535 exchanges the bytes of a residue. */
  lemma SwappedResidue(s: nat, h: nat)
    requires 0x100 * h <= s
    ensures 0xFFFF * h <= 0x100 * s && Residue(0x100 * s - 0xFFFF * h) == Swapped(Residue(s))
  {
    if s > 0 {
      var k, r := (s - 1) / 0xFFFF, Residue(s);
      assert s == k * 0xFFFF + r;
      var m := 0x100 * k + r / 0x100 - h;
      assert 0x100 * s - 0xFFFF * h == m * 0xFFFF + Swapped(r);
      assert 0 < Swapped(r);
      assert m >= 0 by {
        assert m * 0xFFFF + Swapped(r) > 0;
      }
      ResidueOf(m, Swapped(r));
    }
  }

  lemma BytesOf(high: nat, low: nat)
    requires high < 0x100 && low < 0x100
    ensures (0x100 * high + low) / 0x100 == high && (0x100 * high + low) % 0x100 == low
  {
  }

  lemma SwapTwice(w: word)
    ensures Swapped(Swapped(w)) == w && Swapped(0xFFFF - w) == 0xFFFF - Swapped(w)
    ensures OnWire(w, Big) == w && OnWire(w, Little) == Swapped(w)
  {
    var high, low := w / 0x100, w % 0x100;
    BytesOf(low, high);
    assert 0xFFFF - w == 0x100 * (255 - high) + (255 - low);
    BytesOf(255 - high, 255 - low);
  }

  lemma RfcWordsSwap(p: seq<byte>)
    ensures forall i | 0 <= i < (|p| + 1) / 2 :: RfcWords(p, Little)[i] == Swapped(RfcWords(p, Big)[i])
  {
  }

  lemma RfcSumsSwap(p: seq<byte>)
    ensures OnesSum(RfcWords(p, Little)) == Swapped(OnesSum(RfcWords(p, Big)))
  {
    var big, little := RfcWords(p, Big), RfcWords(p, Little);
    RfcWordsSwap(p);
    SwappedSum(big, little);
    SwappedResidue(Sum(big), HighBytes(big));
    OnesSumIsResidue(big);
    OnesSumIsResidue(little);
  }

  /** RFC 1071's sum does not depend on the byte order (its section 2): stored in memory, the
      checksums of machines of either order are the same two bytes. */
  lemma RfcChecksumIgnoresByteOrder(p: seq<byte>, order: ByteOrder)
    ensures OnWire(RfcChecksum(p, order), order) == RfcChecksum(p, Big)
  {
    var s := OnesSum(RfcWords(p, Big));
    RfcSumsSwap(p);
    SwapTwice(s);
    SwapTwice(0xFFFF - OnesSum(RfcWords(p, order)));
  }

  lemma {:induction false} ReplacingShiftsSum(ws: seq<word>, i: nat, w: word)
    requires i < |ws|
    ensures Sum(ws[i := w]) == Sum(ws) - ws[i] + w
  {
    var n := |ws| - 1;
    if i < n {
      ReplacingShiftsSum(ws[..n], i, w);
      assert ws[i := w][..n] == ws[..n][i := w];
    } else {
      assert ws[i := w][..n] == ws[..n];
    }
  }

  /** `hdr->checksum = w` at an even offset. */
  function Store(p: seq<byte>, at: nat, w: word, order: ByteOrder): (q: seq<byte>)
    requires at + 1 < |p|
    ensures |q| == |p|
  {
    p[at := FirstByte(w, order)][at + 1 := SecondByte(w, order)]
  }

  lemma StoreReplaces(p: seq<byte>, at: nat, w: word, order: ByteOrder)
    requires at % 2 == 0 && at + 1 < |p|
    ensures WordsOf(Store(p, at, w, order), order) == WordsOf(p, order)[at / 2 := w]
    ensures WordsOf(p, order)[at / 2] == Load(p[at], p[at + 1], order)
  {
  }

  lemma StoreShiftsSum(p: seq<byte>, at: nat, w: word, order: ByteOrder)
    requires at % 2 == 0 && at + 1 < |p|
    ensures Sum(WordsOf(Store(p, at, w, order), order)) ==
            Sum(WordsOf(p, order)) - Load(p[at], p[at + 1], order) + w
  {
    StoreReplaces(p, at, w, order);
    ReplacingShiftsSum(WordsOf(p, order), at / 2, w);
  }

  /** Storing a packet's checksum in its zeroed field makes the checksum of the whole 0,
      whatever the length of the packet. */
  lemma StoredChecksumVerifies(p: seq<byte>, at: nat, order: ByteOrder)
    requires at % 2 == 0 && at + 1 < |p| && p[at] == p[at + 1] == 0
    ensures ChecksumOf(Store(p, at, ChecksumOf(p, order), order), order) == 0
  {
    var c := ChecksumOf(p, order);
    StoreShiftsSum(p, at, c, order);
    CompletedSumVerifies(Sum(WordsOf(p, order)), c);
  }

  lemma CompletedSumVerifies(s: nat, c: word)
    requires c == Finish(s % 0x1_0000_0000)
    ensures Finish((s + c) % 0x1_0000_0000) == 0
  {
    CompletedWordVerifies(s % 0x1_0000_0000, c);
    SmallAddend(s, c);
  }

  lemma CompletedWordVerifies(m: uint32, c: word)
    requires c == Finish(m)
    ensures m + c < 0x1_0000_0000 && Finish(m + c) == 0
  {
    assert c == 0xFFFF - Residue(m) by { TwoFoldsSuffice(m); }
    ComplementCompletes(m, c);
    TwoFoldsSuffice(m + c);
  }

  lemma SmallAddend(s: nat, c: word)
    requires s % 0x1_0000_0000 + c < 0x1_0000_0000
    ensures (s + c) % 0x1_0000_0000 == s % 0x1_0000_0000 + c
  {
  }

  lemma StoreKeepsOmitted(p: seq<byte>, at: nat, w: word, order: ByteOrder)
    requires at % 2 == 0 && at + 1 < |p|
    ensures Omitted(Store(p, at, w, order), order) == Omitted(p, order)
  {
  }

  lemma OmissionShows(s: uint32, e: nat)
    requires Finish(s) == 0 && e <= 255 * 255
    ensures Residue(s + e) == 0xFFFF <==> e == 0
  {
    TwoFoldsSuffice(s);
    ShiftedResidue(s, e);
  }

  /** A receiver that follows RFC 1071 accepts a short packet with the stored checksum exactly when
      the odd last byte, if there is one, was read as RFC 1071 does. */
  lemma ReceiverAcceptsIff(p: seq<byte>, at: nat, order: ByteOrder)
    requires at % 2 == 0 && at + 1 < |p| <= 131074 && p[at] == p[at + 1] == 0
    ensures RfcChecksum(Store(p, at, ChecksumOf(p, order), order), order) == 0 <==>
            |p| % 2 == 0 || order.Little? || p[|p| - 1] == 0
  {
    var q := Store(p, at, ChecksumOf(p, order), order);
    StoredChecksumVerifies(p, at, order);
    var s := ShortSum(q, order);
    RfcSum(q, order);
    OnesSumIsResidue(RfcWords(q, order));
    StoreKeepsOmitted(p, at, ChecksumOf(p, order), order);
    OmissionShows(s, Omitted(q, order));
  }

  /** What the receiver's check is worth: in a short packet that verifies, replacing one word
      goes unnoticed exactly when the word is unchanged, or 0 and 0xFFFF are exchanged and the
      packet is not left all zero. */
  lemma OneWordChangeDetected(p: seq<byte>, at: nat, w: word, order: ByteOrder)
    requires at % 2 == 0 && at + 1 < |p| <= 131074 && ChecksumOf(p, order) == 0
    ensures var q, d := Store(p, at, w, order), w - Load(p[at], p[at + 1], order);
            ChecksumOf(q, order) == 0 <==>
            Sum(WordsOf(q, order)) != 0 && (d == 0 || d == 0xFFFF || d == -0xFFFF)
  {
    var q, v := Store(p, at, w, order), Load(p[at], p[at + 1], order);
    StoreShiftsSum(p, at, w, order);
    var s := ShortSum(p, order);
    var t := ShortSum(q, order);
    assert t == s + (w - v);
    ShiftedSumVerifies(s, w - v);
  }

  lemma ShortSum(p: seq<byte>, order: ByteOrder) returns (s: uint32)
    requires |p| <= 131074
    ensures s == Sum(WordsOf(p, order)) && ChecksumOf(p, order) == Finish(s)
  {
    SumBound(WordsOf(p, order));
    s := Sum(WordsOf(p, order));
    Unwrapped(s);
  }

  lemma Unwrapped(s: nat)
    requires s < 0x1_0000_0000
    ensures s % 0x1_0000_0000 == s
  {
  }

  lemma ShiftedSumVerifies(s: uint32, d: int)
    requires Finish(s) == 0 && -0xFFFF <= d <= 0xFFFF && 0 <= s + d < 0x1_0000_0000
    ensures Finish(s + d) == 0 <==> s + d != 0 && (d == 0 || d == 0xFFFF || d == -0xFFFF)
  {
    TwoFoldsSuffice(s);
    TwoFoldsSuffice(s + d);
    ShiftedResidue(s, d);
  }

  // ----- The code -----

  lemma SumExtends(ws: seq<word>, k: nat)
    requires k < |ws|
    ensures Sum(ws[..k + 1]) == Sum(ws[..k]) + ws[k]
  {
    assert ws[..k + 1][..k] == ws[..k];
  }

  /** `sum += w` on an unsigned int that stands for `total`. */
  function WrapAdd(sum: uint32, w: word, ghost total: nat): (r: uint32)
    requires sum == total % 0x1_0000_0000
    ensures r == (total + w) % 0x1_0000_0000
  {
    (sum + w) % 0x1_0000_0000
  }

  /** One turn of the loop, or the odd byte: the sum of the first `k` words grows by the next one. */
  lemma SumOfNext(words: seq<word>, k: nat, w: word, sum: uint32)
    requires k < |words| && words[k] == w && sum == Sum(words[..k]) % 0x1_0000_0000
    ensures WrapAdd(sum, w, Sum(words[..k])) == Sum(words[..k + 1]) % 0x1_0000_0000
  {
    SumExtends(words, k);
  }

  method IcmpChecksum(buf: array<byte>, length: nat, order: ByteOrder) returns (r: word)
    requires length <= buf.Length
    ensures r == ChecksumOf(buf[..length], order)
  {
    ghost var words := WordsOf(buf[..length], order);
    var sum: uint32, len, data := 0, length, 0;
    while len > 1
      invariant 0 <= len && len == length - 2 * data
      invariant sum == Sum(words[..data]) % 0x1_0000_0000
    {
      var next := Load(buf[2 * data], buf[2 * data + 1], order);
      SumOfNext(words, data, next, sum);
      sum := WrapAdd(sum, next, Sum(words[..data]));
      data, len := data + 1, len - 2;
    }
    if len == 1 {
      SumOfNext(words, data, buf[2 * data], sum);
      sum := WrapAdd(sum, buf[2 * data], Sum(words[..data]));
      assert words[..data + 1] == words;
    } else {
      assert words[..data] == words;
    }
    r := Finish(sum);
  }

  const HEADER_SIZE := 8
  const PAYLOAD_SIZE := 32
  const ICMP_ECHO: byte := 8

  /** The echo request for `ident` and `seqno` (in network byte order) before its checksum is set. */
  function Echo(ident: word, seqno: word): (p: seq<byte>)
    ensures |p| == HEADER_SIZE + PAYLOAD_SIZE
  {
    [ICMP_ECHO, 0, 0, 0, ident / 0x100, ident % 0x100, seqno / 0x100, seqno % 0x100]
    + seq(PAYLOAD_SIZE, _ => 0)
  }

  /** `memset(buf, 0, n)` */
  method Clear(buf: array<byte>, n: nat)
    requires n <= buf.Length
    modifies buf
    ensures buf[..n] == seq(n, _ => 0) && buf[n..] == old(buf[n..])
  {
    for i := 0 to n
      invariant forall k | 0 <= k < i :: buf[k] == 0
      invariant forall k | n <= k < buf.Length :: buf[k] == old(buf[k])
    {
      buf[i] := 0;
    }
  }

  method WriteEcho(buf: array<byte>, ident: word, seqno: word)
    requires buf.Length >= HEADER_SIZE + PAYLOAD_SIZE
    modifies buf
    ensures buf[..HEADER_SIZE + PAYLOAD_SIZE] == Echo(ident, seqno)
    ensures buf[HEADER_SIZE + PAYLOAD_SIZE..] == old(buf[HEADER_SIZE + PAYLOAD_SIZE..])
  {
    Clear(buf, HEADER_SIZE + PAYLOAD_SIZE);
    ghost var cleared := buf[..];
    assert forall k | 0 <= k < HEADER_SIZE + PAYLOAD_SIZE :: cleared[k] == seq(HEADER_SIZE + PAYLOAD_SIZE, _ => 0)[k];
    buf[0], buf[1] := ICMP_ECHO, 0;
    buf[4], buf[5] := ident / 0x100, ident % 0x100;
    buf[6], buf[7] := seqno / 0x100, seqno % 0x100;
    assert forall k | HEADER_SIZE <= k < buf.Length :: buf[k] == cleared[k];
  }

  method StoreWord(buf: array<byte>, length: nat, at: nat, w: word, order: ByteOrder)
    requires at + 1 < length <= buf.Length
    modifies buf
    ensures buf[..length] == Store(old(buf[..length]), at, w, order)
    ensures buf[length..] == old(buf[length..])
  {
    buf[at], buf[at + 1] := FirstByte(w, order), SecondByte(w, order);
  }

  /** The bytes a word is stored as are those of its network-order reading. */
  lemma StoredOnWire(p: seq<byte>, at: nat, w: word, order: ByteOrder)
    requires at + 1 < |p|
    ensures Store(p, at, w, order) == Store(p, at, OnWire(w, order), Big)
  {
    BytesOf(FirstByte(w, order), SecondByte(w, order));
  }

  lemma EchoOnWire(ident: word, seqno: word, order: ByteOrder)
    ensures var p := Echo(ident, seqno);
            Store(p, 2, ChecksumOf(p, order), order) == Store(p, 2, RfcChecksum(p, Big), Big)
  {
    var p := Echo(ident, seqno);
    ShortPacketsDoNotWrap(p, order);
    RfcChecksumIgnoresByteOrder(p, order);
    StoredOnWire(p, 2, ChecksumOf(p, order), order);
  }

  /** Whatever the machine's byte order, the packet is the echo request with RFC 1071's checksum in
      network byte order, and it verifies; bytes beyond it are untouched. */
  method BuildIcmp4Echo(buf: array<byte>, ident: word, seqno: word, order: ByteOrder) returns (length: nat)
    requires buf.Length >= HEADER_SIZE + PAYLOAD_SIZE
    modifies buf
    ensures length == HEADER_SIZE + PAYLOAD_SIZE
    ensures ChecksumOf(buf[..length], order) == 0
    ensures buf[..length] == Store(Echo(ident, seqno), 2, RfcChecksum(Echo(ident, seqno), Big), Big)
    ensures buf[length..] == old(buf[length..])
  {
    length := HEADER_SIZE + PAYLOAD_SIZE;
    WriteEcho(buf, ident, seqno);
    var c := IcmpChecksum(buf, length, order);
    StoredChecksumVerifies(Echo(ident, seqno), 2, order);
    EchoOnWire(ident, seqno, order);
    StoreWord(buf, length, 2, c, order);
  }
}
