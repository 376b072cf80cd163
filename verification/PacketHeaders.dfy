/**
 * The builders of netstack/protocol that place a checksum: the IPv4 header (section 3.1 of RFC 791), the UDP
 * datagram and the TCP header (section 3.1 of RFC 9293), filled in place field by field.
 */
module PacketHeaders {

  import opened Checksum

  type u16 = x: nat | x < 0x1_0000
  type u32 = x: nat | x < 0x1_0000_0000

  /** An IPv4 address as it lies in memory, in network order. */
  type Address = s: seq<byte> | |s| == 4 witness [0, 0, 0, 0]

  datatype Inet = Inet(localIp: Address, remoteIp: Address, localPort: u16, remotePort: u16)

  /** htonl, stored */
  function Store32Be(x: u32): (s: seq<byte>)
    ensures |s| == 4
  {
    StoreBe(x / 0x1_0000) + StoreBe(x % 0x1_0000)
  }

  // ----- the layouts

  function IpFront(tos: byte, len: u16, identification: u16, flags: u16, ttl: byte, protocol: byte): seq<byte> {
    [0x45] + [tos] + StoreLe(len) + StoreBe(identification) + StoreBe(flags) + [ttl] + [protocol]
  }

  function Pseudo(inet: Inet, protocol: byte, len: nat): (s: seq<byte>)
    ensures |s| == 12
  {
    inet.localIp + inet.remoteIp + [0] + [protocol] + StoreBe(len % 0x1_0000)
  }

  function UdpFront(inet: Inet, len: u16): seq<byte> {
    StoreBe(inet.localPort) + StoreBe(inet.remotePort) + StoreBe(len)
  }

  function TcpFront(inet: Inet, flag: byte, seqNum: u32, ackNum: u32, optionsLen: nat): seq<byte> {
    StoreBe(inet.localPort) + StoreBe(inet.remotePort) + Store32Be(seqNum) + Store32Be(ackNum) +
    [(20 + optionsLen) / 4 * 16 % 256] + [flag] + StoreBe(0xfaf0)
  }

  /** What create_tcp_header stores as the checksum. */
  function TcpField(
    inet: Inet, flag: byte, seqNum: u32, ackNum: u32, options: seq<byte>, data: seq<byte>, haveMemory: bool): u16 {
    if !haveMemory then 0 else
      var front := TcpFront(inet, flag, seqNum, ackNum, |options|);
      ChecksumBe(Pseudo(inet, 6, 20 + |options| + |data|) + Filled(front, StoreBe(0), StoreBe(0)) + options + data)
  }

  // ----- how a reader takes the fields

  /** The 16-bit number at a place, high byte first. */
  function Net16(s: seq<byte>, at: nat): nat
    requires at + 2 <= |s|
  {
    s[at] as int * 256 + s[at + 1] as int
  }

  /** The same, low byte first. */
  function Native16(s: seq<byte>, at: nat): nat
    requires at + 2 <= |s|
  {
    s[at] as int + s[at + 1] as int * 256
  }

  /** The 32-bit number at a place, high byte first. */
  function Net32(s: seq<byte>, at: nat): nat
    requires at + 4 <= |s|
  {
    Net16(s, at) * 0x1_0000 + Net16(s, at + 2)
  }

  // ----- the fields of the layouts, in the order of section 3.1 of RFC 791, RFC 768 and section 3.1 of RFC 9293

  lemma IpFields(tos: byte, len: u16, identification: u16, flags: u16, ttl: byte, protocol: byte)
    ensures var h := IpFront(tos, len, identification, flags, ttl, protocol);
      && |h| == 10 && h[0] == 0x45 && h[1] == tos && Native16(h, 2) == len
      && Net16(h, 4) == identification && Net16(h, 6) == flags && h[8] == ttl && h[9] == protocol
  {
  }

  /** The pseudo-header: both addresses, a zero, the protocol and the length in 16 bits. */
  lemma PseudoFields(inet: Inet, protocol: byte, len: nat)
    ensures var h := Pseudo(inet, protocol, len);
      && |h| == 12 && h[..4] == inet.localIp && h[4..8] == inet.remoteIp
      && h[8] == 0 && h[9] == protocol && Net16(h, 10) == len % 0x1_0000
  {
  }

  lemma UdpFields(inet: Inet, len: u16)
    ensures var h := UdpFront(inet, len);
      && |h| == 6 && Net16(h, 0) == inet.localPort && Net16(h, 2) == inet.remotePort
      && Net16(h, 4) == len
  {
  }

  lemma Word32(x: u32)
    ensures var s := Store32Be(x); Net32(s, 0) == x
  {
  }

  /** The offset in the upper four bits of its byte. */
  lemma OffsetByte(optionsLen: nat)
    ensures var b := (20 + optionsLen) / 4 * 16 % 256;
      && b / 16 == (20 + optionsLen) / 4 % 16 && b % 16 == 0
      && (optionsLen % 4 == 0 && optionsLen <= 40 ==> b / 16 * 4 == 20 + optionsLen)
  {
    var x := (20 + optionsLen) / 4;
    assert x * 16 == x / 16 * 256 + x % 16 * 16;
    assert x * 16 % 256 == x % 16 * 16;
  }

  lemma TcpFields(inet: Inet, flag: byte, seqNum: u32, ackNum: u32, optionsLen: nat)
    ensures var h := TcpFront(inet, flag, seqNum, ackNum, optionsLen);
      && |h| == 16 && Net16(h, 0) == inet.localPort && Net16(h, 2) == inet.remotePort
      && Net32(h, 4) == seqNum && Net32(h, 8) == ackNum
      && h[12] / 16 == (20 + optionsLen) / 4 % 16 && h[12] % 16 == 0
      && (optionsLen % 4 == 0 && optionsLen <= 40 ==> h[12] / 16 * 4 == 20 + optionsLen)
      && h[13] == flag && Net16(h, 14) == 0xfaf0
  {
    hide Store32Be, StoreBe;
    Word16(inet.localPort);
    Word16(inet.remotePort);
    Word32(seqNum);
    Word32(ackNum);
    OffsetByte(optionsLen);
    Word16(0xfaf0);
    var h := TcpFront(inet, flag, seqNum, ackNum, optionsLen);
    assert h[0..2] == StoreBe(inet.localPort) && h[2..4] == StoreBe(inet.remotePort);
    assert h[4..8] == Store32Be(seqNum) && h[8..12] == Store32Be(ackNum);
    assert h[14..16] == StoreBe(0xfaf0);
    ReadAt(h, 0);
    ReadAt(h, 2);
    ReadAt(h, 4);
    ReadAt(h, 8);
    ReadAt(h, 14);
  }

  lemma Word16(x: u16)
    ensures var s := StoreBe(x); |s| == 2 && Net16(s, 0) == x
  {
  }

  lemma ReadAt(h: seq<byte>, at: nat)
    requires at + 2 <= |h|
    ensures Net16(h, at) == Net16(h[at..at + 2], 0)
    ensures at + 4 <= |h| ==> Net32(h, at) == Net32(h[at..at + 4], 0)
  {
  }

  /** What stands where in a header filled in. */
  lemma FilledAt(front: seq<byte>, field: seq<byte>, after: seq<byte>)
    ensures var h := Filled(front, field, after);
      && |h| == |front| + |field| + |after| && h[..|front|] == front
      && h[|front|..|front| + |field|] == field && h[|front| + |field|..] == after
  {
  }

  // ----- the code

  // The next field of a structure filled from its start.
  method Put(a: array<byte>, at: nat, s: seq<byte>)
    requires at + |s| <= a.Length
    modifies a
    ensures a[..at + |s|] == old(a[..at]) + s
    ensures a[at + |s|..] == old(a[at + |s|..])
  {
    Copy(a, at, s);
  }

  // Lines 35-41.
  method PutIpFront(
    header: array<byte>, tos: byte, len: u16, identification: u16, flags: u16, ttl: byte, protocol: byte)
    requires header.Length == 20
    modifies header
    ensures header[..10] == IpFront(tos, len, identification, flags, ttl, protocol)
  {
    Put(header, 0, [0x45]);
    Put(header, 1, [tos]);
    Put(header, 2, StoreLe(len));
    Put(header, 4, StoreBe(identification));
    Put(header, 6, StoreBe(flags));
    Put(header, 8, [ttl]);
    Put(header, 9, [protocol]);
  }

  method CreateIpHeader(
    tos: byte, len: u16, identification: u16, flags: u16, ttl: byte, protocol: byte, src: Address, dst: Address)
    returns (header: array<byte>)
    ensures fresh(header)
    ensures var front := IpFront(tos, len, identification, flags, ttl, protocol);
      header[..] == Filled(front, StoreLe(ChecksumLe(Filled(front, StoreLe(0), src + dst))), src + dst)
    ensures ChecksumLe(header[..]) == 0 && ChecksumBe(header[..]) == 0
    ensures header.Length == 20 && header[0] == 0x45 && header[1] == tos && Native16(header[..], 2) == len
    ensures Net16(header[..], 4) == identification && Net16(header[..], 6) == flags
    ensures header[8] == ttl && header[9] == protocol && header[12..16] == src && header[16..] == dst
  {
    hide SumLe, SumBe, ChecksumLe, ChecksumBe, IpFront;
    ghost var front := IpFront(tos, len, identification, flags, ttl, protocol);
    header := new byte[20](_ => 0);
    PutIpFront(header, tos, len, identification, flags, ttl, protocol);
    Put(header, 10, StoreLe(0));
    assert header[..12] == front + StoreLe(0);
    Put(header, 12, src);
    assert header[..16] == front + StoreLe(0) + src;
    Put(header, 16, dst);
    assert header[..] == header[..20];
    Associative(front + StoreLe(0), src, dst);
    assert header[..] == Filled(front, StoreLe(0), src + dst);
    var c := IpChecksum(header, 20);
    Copy(header, 10, StoreLe(c));
    assert header[..] == Filled(front, StoreLe(c), src + dst);
    FilledVerifies(front, src + dst);
    BothVerify(header[..]);
    IpFields(tos, len, identification, flags, ttl, protocol);
    FilledAt(front, StoreLe(c), src + dst);
  }

  lemma Associative(a: seq<byte>, b: seq<byte>, c: seq<byte>)
    ensures a + b + c == a + (b + c)
  {
  }

  lemma BothVerify(s: seq<byte>)
    requires Words(s) <= 65537
    ensures ChecksumLe(s) == 0 <==> ChecksumBe(s) == 0
  {
    ByteOrderIndependence(s);
    SwapTwice(ChecksumBe(s));
  }

  /** udp_checksum */
  method UdpChecksum(pseudo: seq<byte>, header: seq<byte>, data: seq<byte>) returns (c: nat)
    ensures c == ChecksumLe(pseudo + header + data)
  {
    var all := |pseudo| + |header| + |data|;
    var buffer := new byte[all];
    Put(buffer, 0, pseudo);
    Put(buffer, |pseudo|, header);
    Put(buffer, |pseudo| + |header|, data);
    assert buffer[..all] == pseudo + header + data;
    c := IpChecksum(buffer, all);
  }

  // Lines 42-44.
  method PutUdpFront(packet: array<byte>, inet: Inet, len: u16)
    requires packet.Length >= 8
    modifies packet
    ensures packet[..6] == UdpFront(inet, len) && packet[6..] == old(packet[6..])
  {
    Put(packet, 0, StoreBe(inet.localPort));
    Put(packet, 2, StoreBe(inet.remotePort));
    Put(packet, 4, StoreBe(len));
  }

  /**
   * The datagram, header and data in one piece. The buffer has the 16-bit length that is sent, so exactly the data
   * of up to 65527 bytes fits; with more the copy would run past the buffer, and there is no datagram.
   */
  method CreateUdpHeader(inet: Inet, data: seq<byte>) returns (fits: bool, packet: array<byte>)
    ensures fits <==> |data| <= 65527
    ensures fresh(packet)
    ensures fits ==> var (pseudo, front) := (Pseudo(inet, 17, 8 + |data|), UdpFront(inet, 8 + |data|));
      packet[..] == Filled(front, StoreLe(ChecksumLe(pseudo + Filled(front, StoreLe(0), data))), data)
    ensures fits ==> ChecksumLe(Pseudo(inet, 17, 8 + |data|) + packet[..]) == 0
    ensures fits ==> ChecksumBe(Pseudo(inet, 17, 8 + |data|) + packet[..]) == 0
    ensures fits ==> packet.Length == 8 + |data| && packet[8..] == data
    ensures fits ==>
      && Net16(packet[..], 0) == inet.localPort && Net16(packet[..], 2) == inet.remotePort
      && Net16(packet[..], 4) == 8 + |data|
  {
    hide SumLe, SumBe, ChecksumLe, ChecksumBe, UdpFront, Pseudo;
    fits := 8 + |data| == (8 + |data|) % 0x1_0000;
    if !fits {
      packet := new byte[0];
      return;
    }
    var len := 8 + |data|;
    ghost var front := UdpFront(inet, len);
    packet := new byte[len](_ => 0);
    PutUdpFront(packet, inet, len);
    Put(packet, 6, StoreLe(0));
    assert packet[..8] == front + StoreLe(0);
    if |data| != 0 {
      Put(packet, 8, data);
    }
    assert packet[..] == Filled(front, StoreLe(0), data);
    var pseudo := Pseudo(inet, 17, len);
    var c := UdpChecksum(pseudo, packet[..8], data);
    Copy(packet, 6, StoreLe(c));
    assert packet[..] == Filled(front, StoreLe(c), data);
    PseudoFilled(pseudo, front, StoreLe(0), data);
    PseudoFilled(pseudo, front, StoreLe(c), data);
    FilledVerifies(pseudo + front, data);
    BothVerify(pseudo + packet[..]);
    UdpFields(inet, len);
    FilledAt(front, StoreLe(c), data);
  }

  lemma PseudoFilled(pseudo: seq<byte>, front: seq<byte>, field: seq<byte>, after: seq<byte>)
    ensures pseudo + (front + field) + after == Filled(pseudo + front, field, after)
    ensures pseudo + Filled(front, field, after) == Filled(pseudo + front, field, after)
  {
  }

  // Lines 22-28.
  method PutTcpFront(header: array<byte>, inet: Inet, flag: byte, seqNum: u32, ackNum: u32, optionsLen: nat)
    requires header.Length == 20
    modifies header
    ensures header[..16] == TcpFront(inet, flag, seqNum, ackNum, optionsLen)
  {
    Put(header, 0, StoreBe(inet.localPort));
    Put(header, 2, StoreBe(inet.remotePort));
    Put(header, 4, Store32Be(seqNum));
    Put(header, 8, Store32Be(ackNum));
    Put(header, 12, [(20 + optionsLen) / 4 * 16 % 256]);
    Put(header, 13, [flag]);
    Put(header, 14, StoreBe(0xfaf0));
  }

  /** The TCP header; options and data are summed but sent from where they are. */
  method CreateTcpHeader(
    inet: Inet, flag: byte, seqNum: u32, ackNum: u32, options: seq<byte>, data: seq<byte>, haveMemory: bool)
    returns (header: array<byte>)
    ensures fresh(header)
    ensures header[..] == Filled(TcpFront(inet, flag, seqNum, ackNum, |options|),
      StoreBe(TcpField(inet, flag, seqNum, ackNum, options, data, haveMemory)), StoreBe(0))
    ensures var segment := Pseudo(inet, 6, 20 + |options| + |data|) + header[..] + options + data;
      haveMemory && Words(segment) <= 65537 ==> ChecksumBe(segment) == 0 && ChecksumLe(segment) == 0
    ensures header.Length == 20
    ensures Net16(header[..], 0) == inet.localPort && Net16(header[..], 2) == inet.remotePort
    ensures Net32(header[..], 4) == seqNum
    ensures Net32(header[..], 8) == ackNum
    ensures header[12] / 16 == (20 + |options|) / 4 % 16 && header[12] % 16 == 0
    ensures |options| % 4 == 0 && |options| <= 40 ==> header[12] / 16 * 4 == 20 + |options|
    ensures header[13] == flag && Net16(header[..], 14) == 0xfaf0 && header[18] == header[19] == 0
    ensures !haveMemory ==> header[16] == header[17] == 0
  {
    hide SumLe, SumBe, ChecksumLe, ChecksumBe, TcpFront, Pseudo;
    var pseudo := Pseudo(inet, 6, 20 + |options| + |data|);
    ghost var front := TcpFront(inet, flag, seqNum, ackNum, |options|);
    header := new byte[20](_ => 0);
    PutTcpFront(header, inet, flag, seqNum, ackNum, |options|);
    Put(header, 16, StoreBe(0));
    Put(header, 18, StoreBe(0));
    assert header[..] == Filled(front, StoreBe(0), StoreBe(0));
    var c := TcpChecksum(pseudo, header[..], options, data, haveMemory);
    Copy(header, 16, StoreBe(c));
    assert header[..] == Filled(front, StoreBe(c), StoreBe(0));
    if haveMemory {
      SegmentVerifies(pseudo, front, options, data);
    }
    TcpFields(inet, flag, seqNum, ackNum, |options|);
    FilledAt(front, StoreBe(c), StoreBe(0));
  }

  lemma SegmentFilled(pseudo: seq<byte>, front: seq<byte>, field: seq<byte>, options: seq<byte>, data: seq<byte>)
    ensures pseudo + Filled(front, field, StoreBe(0)) + options + data ==
      Filled(pseudo + front, field, StoreBe(0) + options + data)
  {
  }

  lemma SegmentVerifies(pseudo: seq<byte>, front: seq<byte>, options: seq<byte>, data: seq<byte>)
    requires |pseudo| == 12 && |front| == 16
    ensures var c := ChecksumBe(pseudo + Filled(front, StoreBe(0), StoreBe(0)) + options + data);
      var s := pseudo + Filled(front, StoreBe(c), StoreBe(0)) + options + data;
      Words(s) <= 65537 ==> ChecksumBe(s) == 0 && ChecksumLe(s) == 0
  {
    var c := ChecksumBe(pseudo + Filled(front, StoreBe(0), StoreBe(0)) + options + data);
    var s := pseudo + Filled(front, StoreBe(c), StoreBe(0)) + options + data;
    SegmentFilled(pseudo, front, StoreBe(0), options, data);
    SegmentFilled(pseudo, front, StoreBe(c), options, data);
    if Words(s) <= 65537 {
      FilledVerifiesBe(pseudo + front, StoreBe(0) + options + data);
      BothVerify(s);
    }
  }

  /** For the same input the UDP and the TCP way of summing and storing leave the same two bytes. */
  lemma BuildersAgree(pseudo: seq<byte>, header: seq<byte>, data: seq<byte>)
    requires Words(pseudo + header + data) <= 65537
    ensures StoreLe(ChecksumLe(pseudo + header + data)) == StoreBe(ChecksumBe(pseudo + header + [] + data))
  {
    assert pseudo + header + [] + data == pseudo + header + data;
    SameBytes(pseudo + header + data);
  }
}
