/** ipchksum of srv/ne2000/ne2k.c and its use for the headers of replies, against the Internet checksum of RFC 1071. */
module Checksums {
  import opened Arithmetic

  const M := 0xFFFF

  // ----- RFC 1071 -----

  /** The little-endian word at byte i. */
  function Word(b: seq<byte>, i: int): int
    requires 0 <= i < |b| - 1
  { b[i] as int + 256 * b[i + 1] as int }

  /** The sum of the first n words, without bound. */
  function Total(b: seq<byte>, n: int): (t: int)
    requires 0 <= 2 * n <= |b|
    ensures t >= 0
    decreases n
  { if n <= 0 then 0 else Total(b, n - 1) + Word(b, 2 * n - 2) }

  /** The same of the big-endian words, that is, of the words in network order. */
  function NetworkTotal(b: seq<byte>, n: int): (t: int)
    requires 0 <= 2 * n <= |b|
    ensures t >= 0
    decreases n
  { if n <= 0 then 0 else NetworkTotal(b, n - 1) + 256 * b[2 * n - 2] as int + b[2 * n - 1] as int }

  /** Section 1 of RFC 1071: add the carries back into the low 16 bits until there are none. */
  function Fold(t: int): (s: int)
    requires t >= 0
    ensures 0 <= s <= M
    decreases t
  { if t <= M then t else Fold(t % 0x10000 + t / 0x10000) }

  /** The two bytes of a word exchanged. */
  function Swap(w: int): int { w % 256 * 256 + w / 256 }

  /** The one representative from 1 to 0xFFFF of a positive sum, and 0 of 0. */
  function Reduced(t: int): (s: int)
    requires t >= 0
    ensures 0 <= s <= M && (s == 0 <==> t == 0)
  { if t == 0 then 0 else (t - 1) % M + 1 }

  lemma ReducedUnique(t: int, s: int, k: int)
    requires t > 0 && 1 <= s <= M && t == s + M * k
    ensures Reduced(t) == s
  {
    assert t - 1 == (s - 1) + M * k;
  }

  lemma {:induction false} FoldReduces(t: int)
    requires t >= 0
    ensures Fold(t) == Reduced(t)
    decreases t
  {
    if t > M {
      var hi, lo := t / 0x10000, t % 0x10000;
      FoldReduces(lo + hi);
      var k := (lo + hi - 1) / M;
      assert lo + hi == Reduced(lo + hi) + M * k;
      assert t == Reduced(lo + hi) + M * (k + hi);
      ReducedUnique(t, Reduced(lo + hi), k + hi);
    }
  }

  lemma Congruent(x: int, y: int, k: int)
    requires x > 0 && y > 0 && x == y + M * k
    ensures Reduced(x) == Reduced(y)
  {
    var j := (y - 1) / M;
    assert y == Reduced(y) + M * j;
    assert x == Reduced(y) + M * (j + k);
    ReducedUnique(x, Reduced(y), j + k);
  }

  /** One step of the source's loop is an end-around-carry addition. */
  lemma AddStep(t: int, w: int)
    requires t >= 0 && 0 <= w <= M
    ensures var s := Reduced(t) + w; Reduced(t + w) == if s > M then s - M else s
  {
    if t + w > 0 {
      var s := Reduced(t) + w;
      var k := if t == 0 then 0 else (t - 1) / M;
      assert t == Reduced(t) + M * k;
      if s > M { ReducedUnique(t + w, s - M, k + 1); } else { ReducedUnique(t + w, s, k); }
    }
  }

  /** The checksum of the first n words, by RFC 1071. */
  function Checksum(b: seq<byte>, n: int): (c: int)
    requires 0 <= 2 * n <= |b|
    ensures 0 <= c <= M
  { M - Fold(Total(b, n)) }

  /** The example of section 3: in network order the sum is 0xDDF2, and so the checksum is 0x220D. */
  lemma WorkedExample()
    ensures var b := [0x00, 0x01, 0xF2, 0x03, 0xF4, 0xF5, 0xF6, 0xF7]; Checksum(b, 4) == 0x0D22
  {
    var b: seq<byte> := [0x00, 0x01, 0xF2, 0x03, 0xF4, 0xF5, 0xF6, 0xF7];
    assert Total(b, 1) == 0x100;
    assert Total(b, 2) == 0x100 + 0x03F2;
    assert Total(b, 3) == 0x100 + 0x03F2 + 0xF5F4;
    assert Total(b, 4) == 0x1F2DC;
  }

  // ----- section 2(B): byte order -----

  lemma {:induction false} TotalsAgree(b: seq<byte>, n: int) returns (k: int)
    requires 0 <= 2 * n <= |b|
    ensures Total(b, n) * 256 == NetworkTotal(b, n) + M * k && (Total(b, n) == 0 <==> NetworkTotal(b, n) == 0)
    decreases n
  {
    if n <= 0 {
      k := 0;
    } else {
      var j := TotalsAgree(b, n - 1);
      k := j + b[2 * n - 1];
    }
  }

  lemma SwapSum(s: int)
    requires 0 <= s <= M
    ensures 0 <= Swap(s) <= M && (Swap(s) == 0 <==> s == 0) && 256 * s == Swap(s) + M * (s / 256)
  {
  }

  /** Summing the words in the other byte order gives the sum with its bytes exchanged. */
  lemma ByteOrderIndependent(b: seq<byte>, n: int)
    requires 0 <= 2 * n <= |b|
    ensures Fold(NetworkTotal(b, n)) == Swap(Fold(Total(b, n)))
    ensures M - Fold(NetworkTotal(b, n)) == Swap(Checksum(b, n))
  {
    hide Total, NetworkTotal, Fold, Checksum, Reduced, Swap;
    var t, u := Total(b, n), NetworkTotal(b, n);
    var k := TotalsAgree(b, n);
    FoldReduces(t);
    FoldReduces(u);
    ReducedSwaps(t, u, k);
    ChecksumOf(b, n);
    SwapComplement(Reduced(t));
  }

  lemma ChecksumOf(b: seq<byte>, n: int)
    requires 0 <= 2 * n <= |b|
    ensures Checksum(b, n) == M - Fold(Total(b, n))
  {
  }

  lemma ReducedSwaps(t: int, u: int, k: int)
    requires t >= 0 && u >= 0 && 256 * t == u + M * k && (t == 0 <==> u == 0)
    ensures Reduced(u) == Swap(Reduced(t))
  {
    hide Swap;
    var s := Reduced(t);
    SwapSum(s);
    if t > 0 {
      var j := (t - 1) / M;
      assert t == s + M * j;
      ReducedUnique(u, Swap(s), s / 256 + 256 * j - k);
    }
  }

  lemma SwapComplement(s: int)
    requires 0 <= s <= M
    ensures Swap(M - s) == M - Swap(s)
  {
  }

  // ----- the loop -----

  /** ipchksum of the len bytes at offset from: the words are read in the machine's order, and an odd last byte is not
      read. */
  method IpChksum(p: array<byte>, from: int, len: int) returns (c: int)
    requires 0 <= from && 0 <= len && from + len <= p.Length
    ensures c == Checksum(p[from..from + len], len / 2)
  {
    var n, i, sum := len / 2, 0, 0;
    ghost var b := p[from..from + len];
    while i < n
      invariant 0 <= i <= n && sum == Reduced(Total(b, i))
    {
      sum := sum + p[from + 2 * i] as int + 256 * p[from + 2 * i + 1] as int;
      AddStep(Total(b, i), Word(b, 2 * i));
      if sum > M { sum := sum - M; }
      i := i + 1;
    }
    FoldReduces(Total(b, n));
    c := M - sum;
  }

  // ----- sums stored in what they cover -----

  /** The word c stored at byte i. */
  function Stored(b: seq<byte>, i: int, c: int): (r: seq<byte>)
    requires 0 <= i < |b| - 1 && 0 <= c <= M
    ensures |r| == |b|
  { b[i := c % 256][i + 1 := c / 256] }

  lemma {:induction false} StoredTotal(b: seq<byte>, k: int, c: int, n: int)
    requires 0 <= k && 0 <= n && 2 * n <= |b| && 2 * k + 1 < |b| && 0 <= c <= M
    ensures Total(Stored(b, 2 * k, c), n) == Total(b, n) + if k < n then c - Word(b, 2 * k) else 0
    decreases n
  {
    if n > 0 {
      StoredTotal(b, k, c, n - 1);
      assert k != n - 1 ==> Word(Stored(b, 2 * k, c), 2 * n - 2) == Word(b, 2 * n - 2);
      assert k == n - 1 ==> Word(Stored(b, 2 * k, c), 2 * n - 2) == c;
    }
  }

  /** Section 3.1 of RFC 791: with its checksum stored in the field that was zero, a header sums to zero. */
  lemma HeaderVerifies(b: seq<byte>, k: int, n: int)
    requires 0 <= k < n && 2 * n <= |b| && Word(b, 2 * k) == 0
    ensures Checksum(Stored(b, 2 * k, Checksum(b, n)), n) == 0 && Total(Stored(b, 2 * k, Checksum(b, n)), n) > 0
  {
    var t := Total(b, n);
    FoldReduces(t);
    var c := M - Reduced(t);
    StoredTotal(b, k, c, n);
    FoldReduces(t + c);
    Complements(t);
  }

  /** A sum with the complement of its checksum added folds to all ones. */
  lemma Complements(t: int)
    requires t >= 0
    ensures Reduced(t + M - Reduced(t)) == M && t + M - Reduced(t) > 0
  {
    var j := if t == 0 then 0 else (t - 1) / M;
    assert t == Reduced(t) + M * j;
    ReducedUnique(t + M - Reduced(t), M, j);
  }

  lemma {:induction false} TotalSplit(b: seq<byte>, h: int, m: int)
    requires 0 <= h && 0 <= m && 2 * (h + m) <= |b|
    ensures Total(b, h + m) == Total(b[..2 * h], h) + Total(b[2 * h..], m)
    decreases m
  {
    if m <= 0 {
      TotalPrefix(b, 2 * h, h);
    } else {
      TotalSplit(b, h, m - 1);
    }
  }

  lemma {:induction false} TotalPrefix(b: seq<byte>, l: int, n: int)
    requires 0 <= 2 * n <= l <= |b|
    ensures Total(b[..l], n) == Total(b, n)
    decreases n
  {
    if n > 0 { TotalPrefix(b, l, n - 1); }
  }

  /** A checksum taken over a verified header and what follows it is the one of what follows, unless that is all
      zeros. */
  lemma HeaderDropsOut(b: seq<byte>, h: int, m: int)
    requires 0 <= h && 0 <= m && 2 * (h + m) <= |b| && Checksum(b[..2 * h], h) == 0
    ensures Checksum(b, h + m) == Checksum(b[2 * h..], m) <==> Total(b[2 * h..], m) != 0
  {
    var x, y := Total(b[..2 * h], h), Total(b[2 * h..], m);
    TotalSplit(b, h, m);
    FoldReduces(x);
    FoldReduces(y);
    FoldReduces(x + y);
    var j := (x - 1) / M;
    assert x == M + M * j;
    if y > 0 { Congruent(x + y, y, j + 1); }
  }

  /** An odd last byte is dropped, where section 4.1 of RFC 1071 has it padded with zero: the checksums agree exactly if
      it is zero. */
  lemma OddLastByte(b: seq<byte>)
    requires |b| % 2 == 1
    ensures Checksum(b, |b| / 2) == Checksum(b + [0], |b| / 2 + 1) <==> b[|b| - 1] == 0
  {
    var n, padded, last := |b| / 2, b + [0], b[|b| - 1];
    assert padded[..|b|] == b;
    TotalPrefix(padded, |b|, n);
    var t := Total(b, n);
    assert Total(padded, n + 1) == t + last as int;
    FoldReduces(t);
    FoldReduces(t + last as int);
    AddStep(t, last as int);
  }

  // ----- replies -----

  const ICMP_PING_REQ := 8
  const ETHER := 14
  const IP_HEADER := 20

  /** An IP header whose checksum field is still zero. */
  function IpHeader(length: seq<byte>, protocol: byte, src: seq<byte>, dst: seq<byte>): (h: seq<byte>)
    requires |length| == 2 && |src| == 4 && |dst| == 4
    ensures |h| == IP_HEADER && Word(h, 10) == 0
  { [0x45, 0] + length + [0, 0, 0, 0, 64, protocol, 0, 0] + src + dst }

  /** The header of a reply, with its checksum. */
  function ReplyHeader(req: seq<byte>, ip: seq<byte>): (h: seq<byte>)
    requires |req| >= 34 && |ip| == 4
    ensures |h| == IP_HEADER
  {
    var h := IpHeader(req[16..18], 1, ip, req[26..30]);
    Stored(h, 10, Checksum(h, 10))
  }

  /** The echo reply whose own checksum field is still zero. */
  function EchoReply(req: seq<byte>, length: int): (m: seq<byte>)
    requires 28 <= length && ETHER + length <= |req|
    ensures |m| == length - IP_HEADER && Word(m, 2) == 0
  { [0, 0, 0, 0] + req[38..ETHER + length] }

  /** ntohs of the length field */
  function LengthOf(req: seq<byte>): int
    requires |req| >= 34
  { 256 * req[16] as int + req[17] as int }

  ghost function Overlay(b: seq<byte>, at: int, bytes: seq<byte>): (r: seq<byte>)
    requires 0 <= at && at + |bytes| <= |b|
    ensures |r| == |b|
  { b[..at] + bytes + b[at + |bytes|..] }

  lemma OverlayParts(b: seq<byte>, at: int, bytes: seq<byte>, from: int, to: int)
    requires 0 <= at && at + |bytes| <= |b| && 0 <= from <= to <= |b|
    ensures Overlay(b, at, bytes)[at..at + |bytes|] == bytes
    ensures to <= at || at + |bytes| <= from ==> Overlay(b, at, bytes)[from..to] == b[from..to]
    ensures from <= at && at + |bytes| <= to ==>
      Overlay(b, at, bytes)[from..to] == Overlay(b[from..to], at - from, bytes)
  {
    if from <= at && at + |bytes| <= to { OverlayWithin(b, at, bytes, from, to); }
  }

  lemma OverlayAt(b: seq<byte>, at: int, bytes: seq<byte>, k: int)
    requires 0 <= at && at + |bytes| <= |b| && 0 <= k < |b|
    ensures Overlay(b, at, bytes)[k] == if at <= k < at + |bytes| then bytes[k - at] else b[k]
  {
  }

  lemma OverlayWithin(b: seq<byte>, at: int, bytes: seq<byte>, from: int, to: int)
    requires 0 <= from <= at && at + |bytes| <= to <= |b|
    ensures Overlay(b, at, bytes)[from..to] == Overlay(b[from..to], at - from, bytes)
  {
    hide Overlay;
    var l, r := Overlay(b, at, bytes)[from..to], Overlay(b[from..to], at - from, bytes);
    forall i | 0 <= i < |l| ensures l[i] == r[i] {
      OverlayAt(b, at, bytes, from + i);
      OverlayAt(b[from..to], at - from, bytes, i);
    }
  }

  lemma StoredOverlay(b: seq<byte>, i: int, c: int)
    requires 0 <= i < |b| - 1 && 0 <= c <= M
    ensures Overlay(b, i, [c % 256, c / 256]) == Stored(b, i, c)
  {
  }

  /** memcpy */
  method CopyBytes(to: array<byte>, at: int, bytes: seq<byte>)
    requires 0 <= at && at + |bytes| <= to.Length
    modifies to
    ensures to[..] == Overlay(old(to[..]), at, bytes)
  {
    var i := 0;
    while i < |bytes|
      invariant 0 <= i <= |bytes|
      invariant forall k {:trigger to[k]} ::
        0 <= k < to.Length ==> to[k] == if at <= k < at + i then bytes[k - at] else old(to[k])
    {
      to[at + i] := bytes[i];
      i := i + 1;
    }
  }

  /** The checksum of the len bytes at offset from is stored at offset at. */
  method StoreSum(p: array<byte>, from: int, len: int, at: int)
    requires 0 <= from && 2 <= len && from + len <= p.Length && from <= at && at + 2 <= from + len
    modifies p
    ensures p[from..from + len] == Stored(old(p[from..from + len]), at - from,
        Checksum(old(p[from..from + len]), len / 2))
    ensures p[..from] == old(p[..from])
  {
    hide Checksum, Overlay;
    ghost var b := p[..];
    var c := IpChksum(p, from, len);
    CopyBytes(p, at, [c % 256, c / 256]);
    OverlayParts(b, at, [c % 256, c / 256], from, from + len);
    OverlayParts(b, at, [c % 256, c / 256], 0, from);
    StoredOverlay(b[from..from + len], at - from, c);
    assert b[from..from + len] == old(p[from..from + len]) && p[..][from..from + len] == p[from..from + len];
    assert p[..from] == p[..][0..from] && old(p[..from]) == b[0..from];
  }

  /** The IP header of a reply */
  method FillHeader(req: seq<byte>, ip: seq<byte>, resp: array<byte>)
    requires |req| >= 34 && |ip| == 4 && resp.Length >= 34
    modifies resp
    ensures resp[ETHER..ETHER + IP_HEADER] == ReplyHeader(req, ip) && resp[..ETHER] == old(resp[..ETHER])
  {
    hide Checksum, Overlay, Stored;
    ghost var b := resp[..];
    CopyBytes(resp, ETHER, [0x45, 0] + req[16..18] + [0, 0, 0, 0, 64, 1, 0, 0] + ip + req[26..30]);
    OverlayParts(b, ETHER, IpHeader(req[16..18], 1, ip, req[26..30]), 0, ETHER);
    assert resp[ETHER..ETHER + IP_HEADER] == resp[..][ETHER..ETHER + IP_HEADER];
    assert resp[..ETHER] == resp[..][0..ETHER] && old(resp[..ETHER]) == b[0..ETHER];
    StoreSum(resp, ETHER, IP_HEADER, ETHER + 10);
  }

  /** The message of a reply, behind its IP header */
  method FillMessage(req: seq<byte>, length: int, ghost h: seq<byte>, resp: array<byte>)
    requires |req| >= 34 && 28 <= length && ETHER + length <= |req| && ETHER + length <= resp.Length && |h| == IP_HEADER
      && resp[ETHER..ETHER + IP_HEADER] == h
    modifies resp
    ensures resp[ETHER..ETHER + length] == Stored(h + EchoReply(req, length), 22,
        Checksum(h + EchoReply(req, length), length / 2))
    ensures resp[..ETHER] == old(resp[..ETHER])
  {
    hide Checksum, Overlay, Stored;
    ghost var b := resp[..];
    CopyBytes(resp, 34, [0, 0, 0, 0] + req[38..ETHER + length]);
    OverlayParts(b, 34, EchoReply(req, length), ETHER, 34);
    OverlayParts(b, 34, EchoReply(req, length), 0, ETHER);
    ghost var now := resp[..];
    assert now[ETHER..34] == h && now[34..ETHER + length] == EchoReply(req, length);
    assert resp[ETHER..ETHER + length] == now[ETHER..34] + now[34..ETHER + length];
    assert resp[..ETHER] == now[0..ETHER] && old(resp[..ETHER]) == b[0..ETHER];
    StoreSum(resp, ETHER, length, 36);
  }

  function Reply(req: seq<byte>, ip: seq<byte>): (r: seq<byte>)
    requires |req| >= 34 && |ip| == 4 && 28 <= LengthOf(req) && ETHER + LengthOf(req) <= |req|
    ensures |r| == LengthOf(req)
  {
    var r := ReplyHeader(req, ip) + EchoReply(req, LengthOf(req));
    Stored(r, 22, Checksum(r, LengthOf(req) / 2))
  }

  lemma StoredBehind(h: seq<byte>, e: seq<byte>, c: int)
    requires |h| == IP_HEADER && |e| >= 4 && 0 <= c <= M
    ensures Stored(h + e, 22, c)[..IP_HEADER] == h && Stored(h + e, 22, c)[IP_HEADER..] == Stored(e, 2, c)
    ensures (h + e)[..IP_HEADER] == h && (h + e)[IP_HEADER..] == e
  {
  }

  /** A message with its checksum taken over itself and a verified header: it verifies exactly if it was not all
      zeros. */
  lemma MessageVerifies(h: seq<byte>, e: seq<byte>, n: int)
    requires |h| == IP_HEADER && 4 <= 2 * n <= |e| && Word(e, 2) == 0 && Checksum(h, 10) == 0
    ensures Checksum(Stored(e, 2, Checksum(h + e, 10 + n)), n) == 0 <==> Total(e, n) != 0
  {
    hide Stored, Total, Checksum;
    StoredBehind(h, e, 0);
    HeaderDropsOut(h + e, 10, n);
    if Total(e, n) != 0 {
      HeaderVerifies(e, 1, n);
    } else {
      ZeroMessage(h, e, n, Checksum(h + e, 10 + n));
    }
  }

  lemma ChecksumPrefix(b: seq<byte>, n: int)
    requires 0 <= 2 * n <= |b|
    ensures Checksum(b[..2 * n], n) == Checksum(b, n)
  {
    TotalPrefix(b, 2 * n, n);
  }

  /** Both checksums of a reply of even length are right, except that the one of an all-zero message is wrong: its IP
      header sums to zero, and its message does exactly if it was not all zeros. */
  lemma ReplyVerifies(req: seq<byte>, ip: seq<byte>)
    requires |req| >= 34 && |ip| == 4 && 28 <= LengthOf(req) && ETHER + LengthOf(req) <= |req|
    ensures var r, l, n := Reply(req, ip), LengthOf(req), LengthOf(req) / 2 - 10;
      Checksum(r[..IP_HEADER], 10) == 0
      && (Checksum(r[IP_HEADER..IP_HEADER + 2 * n], n) == 0 <==> Total(EchoReply(req, l), n) != 0)
  {
    hide Stored, Total, Checksum, EchoReply, IpHeader, LengthOf;
    var l := LengthOf(req);
    var h, e := ReplyHeader(req, ip), EchoReply(req, l);
    HeaderVerifies(IpHeader(req[16..18], 1, ip, req[26..30]), 5, 10);
    MessageVerifies(h, e, l / 2 - 10);
    StoredBehind(h, e, Checksum(h + e, l / 2));
    var n, m := l / 2 - 10, Reply(req, ip)[IP_HEADER..];
    assert Reply(req, ip)[IP_HEADER..IP_HEADER + 2 * n] == m[..2 * n];
    ChecksumPrefix(m, n);
  }

  lemma ZeroMessage(h: seq<byte>, e: seq<byte>, n: int, c: int)
    requires |h| == 20 && 4 <= 2 * n <= |e| && Word(e, 2) == 0 && Total(e, n) == 0 && Checksum(h, 10) == 0
      && c == Checksum(h + e, 10 + n)
    ensures Checksum(Stored(e, 2, c), n) != 0
  {
    var b := h + e;
    assert b[..20] == h && b[20..] == e;
    TotalSplit(b, 10, n);
    StoredTotal(e, 1, c, n);
  }

  lemma HeaderBytes(req: seq<byte>, ip: seq<byte>, p: seq<byte>)
    requires |req| >= 34 && |ip| == 4 && 28 <= LengthOf(req) && ETHER + LengthOf(req) <= |req|
    requires ETHER + LengthOf(req) <= |p| && p[ETHER..ETHER + LengthOf(req)] == Reply(req, ip)
    ensures p[14] == 0x45 && p[15] == 0 && p[16..18] == req[16..18] && p[18..22] == [0, 0, 0, 0]
    ensures p[22] == 64 && p[23] == 1 && p[26..30] == ip && p[30..34] == req[26..30] && p[34] == 0 && p[35] == 0
    ensures forall k {:trigger p[k]} :: 38 <= k < ETHER + LengthOf(req) ==> p[k] == req[k]
  {
    hide Checksum, LengthOf;
    var l, r := LengthOf(req), Reply(req, ip);
    assert forall k {:trigger p[k]} :: ETHER <= k < ETHER + l ==> p[k] == r[k - ETHER];
    assert forall k {:trigger r[k]} :: 0 <= k < 20 && k !in {10, 11} ==>
      r[k] == IpHeader(req[16..18], 1, ip, req[26..30])[k];
    assert r[20] == 0 && r[21] == 0;
  }

  lemma {:induction false} TotalZero(b: seq<byte>, n: int)
    requires 0 <= 2 * n <= |b|
    ensures Total(b, n) == 0 <==> forall k {:trigger b[k]} :: 0 <= k < 2 * n ==> b[k] == 0
  {
    if n > 0 {
      TotalZero(b, n - 1);
      assert Word(b, 2 * (n - 1)) == 0 <==> b[2 * n - 2] == 0 && b[2 * n - 1] == 0;
    }
  }

  lemma Within(p: seq<byte>, a: int, b: int, i: int, j: int)
    requires 0 <= a <= b <= |p| && 0 <= i <= j <= b - a
    ensures p[a..b][i..j] == p[a + i..a + j]
  {
    var l, r := p[a..b][i..j], p[a + i..a + j];
    assert |l| == |r|;
    forall k | 0 <= k < |l| ensures l[k] == r[k] {}
  }

  lemma EchoZero(req: seq<byte>, l: int, n: int)
    requires 28 <= l && ETHER + l <= |req| && 0 <= 2 * n <= l - 20
    ensures Total(EchoReply(req, l), n) != 0 <==> exists k :: 38 <= k < 34 + 2 * n && req[k] != 0
  {
    hide Total;
    var e := EchoReply(req, l);
    TotalZero(e, n);
    assert forall k :: 4 <= k < |e| ==> e[k] == req[34 + k];
    if Total(e, n) != 0 {
      var k :| 0 <= k < 2 * n && e[k] != 0;
      assert req[34 + k] != 0;
    } else {
      forall k | 38 <= k < 34 + 2 * n ensures req[k] == 0 { assert e[k - 34] == 0; }
    }
  }

  /** The fields of a reply, by where they lie in the frame p. */
  lemma ReplyBytes(req: seq<byte>, ip: seq<byte>, p: seq<byte>)
    requires |req| >= 34 && |ip| == 4 && 28 <= LengthOf(req) && ETHER + LengthOf(req) <= |req|
    requires ETHER + LengthOf(req) <= |p| && p[ETHER..ETHER + LengthOf(req)] == Reply(req, ip)
    ensures p[14] == 0x45 && p[15] == 0 && p[16..18] == req[16..18] && p[18..22] == [0, 0, 0, 0]
    ensures p[22] == 64 && p[23] == 1 && p[26..30] == ip && p[30..34] == req[26..30] && p[34] == 0 && p[35] == 0
    ensures forall k {:trigger p[k]} :: 38 <= k < ETHER + LengthOf(req) ==> p[k] == req[k]
    ensures Checksum(p[14..34], 10) == 0
    ensures var n := LengthOf(req) / 2 - 10;
      Checksum(p[34..34 + 2 * n], n) == 0 <==> exists k :: 38 <= k < 34 + 2 * n && req[k] != 0
  {
    hide Checksum, Total, LengthOf, Reply, EchoReply;
    var l, r := LengthOf(req), Reply(req, ip);
    var n := l / 2 - 10;
    HeaderBytes(req, ip, p);
    ReplyVerifies(req, ip);
    Within(p, 14, 14 + l, 0, IP_HEADER);
    Within(p, 14, 14 + l, IP_HEADER, IP_HEADER + 2 * n);
    EchoZero(req, l, n);
  }

  /** All of a reply */
  method FillReply(req: array<byte>, ip: seq<byte>, prom: seq<byte>, resp: array<byte>)
    requires req.Length >= 42 && |ip| == 4 && |prom| == 6 && req != resp
    requires 28 <= LengthOf(req[..]) && ETHER + LengthOf(req[..]) <= req.Length
    requires ETHER + LengthOf(req[..]) <= resp.Length
    modifies resp
    ensures resp[..ETHER] == req[6..12] + prom + req[12..14]
    ensures resp[..][ETHER..ETHER + LengthOf(req[..])] == Reply(req[..], ip)
  {
    hide Checksum, Overlay, Stored, ReplyHeader, EchoReply;
    ghost var b := resp[..];
    var length := 256 * req[16] as int + req[17] as int;
    CopyBytes(resp, 0, req[6..12] + prom + req[12..14]);
    OverlayParts(b, 0, req[6..12] + prom + req[12..14], 0, ETHER);
    assert resp[..ETHER] == resp[..][0..ETHER];
    FillHeader(req[..], ip, resp);
    FillMessage(req[..], length, ReplyHeader(req[..], ip), resp);
    assert resp[..][ETHER..ETHER + length] == resp[ETHER..ETHER + length];
  }

  /** handle_icmp: the reply to a ping, field by field. The checksum of the message is taken over the IP header as
      well. */
  method HandleIcmp(req: array<byte>, ip: seq<byte>, prom: seq<byte>, resp: array<byte>) returns (sent: bool)
    requires req.Length >= 42 && |ip| == 4 && |prom| == 6 && req != resp
    requires req[34] == ICMP_PING_REQ ==>
      28 <= LengthOf(req[..]) && ETHER + LengthOf(req[..]) <= req.Length && ETHER + LengthOf(req[..]) <= resp.Length
    modifies resp
    ensures sent <==> req[34] == ICMP_PING_REQ
    ensures sent ==> resp[..ETHER] == req[6..12] + prom + req[12..14]
    // version 4 and five words, no service, the length of the request, no fragments, 64 hops, the protocol ICMP, from
    // here to where the request came from
    ensures sent ==> resp[14] == 0x45 && resp[15] == 0 && resp[16] == req[16] && resp[17] == req[17]
    ensures sent ==> resp[18..22] == [0, 0, 0, 0] && resp[22] == 64 && resp[23] == 1
    ensures sent ==> resp[26..30] == ip && resp[30..34] == req[26..30]
    // an echo reply with the identifier, the number and the data of the request
    ensures sent ==> resp[34] == 0 && resp[35] == 0
    ensures sent ==> forall k {:trigger resp[k]} :: 38 <= k < 14 + LengthOf(req[..]) ==> resp[k] == req[k]
    // the header verifies, and over whole words so does the message, unless it was all zeros
    ensures sent ==> Checksum(resp[14..34], 10) == 0
    ensures sent ==>
      var n := LengthOf(req[..]) / 2 - 10;
      Checksum(resp[34..34 + 2 * n], n) == 0 <==> exists k :: 38 <= k < 34 + 2 * n && req[k] != 0
  {
    hide Checksum, Overlay, Stored, Reply;
    sent := req[34] == ICMP_PING_REQ;
    if sent {
      FillReply(req, ip, prom, resp);
      ghost var p, q, n := resp[..], req[..], LengthOf(req[..]) / 2 - 10;
      ReplyBytes(q, ip, p);
      assert p[18..22] == resp[18..22] && p[26..30] == resp[26..30] && p[30..34] == resp[30..34];
      assert q[26..30] == req[26..30] && p[14..34] == resp[14..34] && p[34..34 + 2 * n] == resp[34..34 + 2 * n];
      assert p[16] == p[16..18][0] && p[17] == p[16..18][1] && q[16] == q[16..18][0] && q[17] == q[16..18][1];
    }
  }
}
