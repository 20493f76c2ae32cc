/** The reply to MSG_T_SUCC_REQ and its way back through the nodes that relayed the request
    (node_successor_found_for_remote, node_found_remote_cb). */
module Replies {
  import opened Ids
  import opened NodeInfos
  import opened Bytes
  import opened LocalNode
  import opened Network
  import Members
  import opened Lookup
  import IdealRing
  import Hops

  const YES: byte := 0x59   // 'Y'
  const REPLY_LENGTH := 13

  /** The value a C short holds after x is stored in it. */
  function ToShort(x: int): (s: int)
    ensures -0x8000 <= s < 0x8000
    ensures s == x <==> -0x8000 <= x < 0x8000
  {
    (x + 0x8000) % 0x1_0000 - 0x8000
  }

  /** Its bit pattern, and back. */
  function ShortBits(s: int): (b: nat)
    requires -0x8000 <= s < 0x8000
    ensures b < 0x1_0000
  {
    if s < 0 then s + 0x1_0000 else s
  }

  function BitsToShort(b: Half): int {
    if b < 0x8000 then b else b - 0x1_0000
  }

  /** node_successor_found_for_remote: 'Y', id, IP, port, and the hops it was given plus one. */
  function EncodeReply(n: NodeInfo, hops: int, big: bool): (s: seq<byte>)
    ensures |s| == REPLY_LENGTH
  {
    [YES] + Store(n.id, 4, big) + Store(n.ip, 4, big) + Store(n.port, 2, big)
      + Store(ShortBits(ToShort(hops + 1)), 2, big)
  }

  /** node_found_remote_cb on a whole reply: the node and the hops. Anything but 'Y' is an empty node. */
  function DecodeReply(s: seq<byte>, big: bool): (NodeInfo, int)
    requires |s| == REPLY_LENGTH
  {
    if s[0] != YES then (EMPTY, 0)
    else
      Widths();
      (NodeInfo(Load(s[1..5], big), Load(s[5..9], big), Load(s[9..11], big)), BitsToShort(Load(s[11..13], big)))
  }

  /** Where the fields of a reply lie. */
  lemma ReplyFields(n: NodeInfo, hops: int, big: bool)
    ensures var s := EncodeReply(n, hops, big);
            && s[0] == YES && s[1..5] == Store(n.id, 4, big) && s[5..9] == Store(n.ip, 4, big)
            && s[9..11] == Store(n.port, 2, big) && s[11..13] == Store(ShortBits(ToShort(hops + 1)), 2, big)
  {
  }

  /** The node information survives; the hops come out one higher, in 16 bits. */
  lemma ReplyRoundTrip(n: NodeInfo, hops: int, big: bool)
    ensures DecodeReply(EncodeReply(n, hops, big), big) == (n, ToShort(hops + 1))
  {
    var h := ShortBits(ToShort(hops + 1));
    ReplyFields(n, hops, big);
    Widths();
    StoreLoad(n.id, 4, big);
    StoreLoad(n.ip, 4, big);
    StoreLoad(n.port, 2, big);
    StoreLoad(h, 2, big);
  }

  /** The 13 bytes of a reply on a little-endian host: 'Y', the id, the IP and the port from their least
      significant byte on, and the hops plus one. */
  lemma ReplyBytes(n: NodeInfo, hops: nat)
    requires hops < 32767
    ensures EncodeReply(n, hops, false) ==
            ['Y' as int, n.id % 256, n.id / 256 % 256, n.id / 65536 % 256, n.id / 16777216 % 256,
             n.ip % 256, n.ip / 256 % 256, n.ip / 65536 % 256, n.ip / 16777216 % 256,
             n.port % 256, n.port / 256 % 256, (hops + 1) % 256, (hops + 1) / 256 % 256]
  {
    FourBytes(n.id);
    FourBytes(n.ip);
    TwoBytes(n.port);
    TwoBytes(hops + 1);
  }

  /** And on a big-endian one. */
  lemma ReplyBytesBigEndian(n: NodeInfo, hops: nat)
    requires hops < 32767
    ensures EncodeReply(n, hops, true) ==
            ['Y' as int, n.id / 16777216 % 256, n.id / 65536 % 256, n.id / 256 % 256, n.id % 256,
             n.ip / 16777216 % 256, n.ip / 65536 % 256, n.ip / 256 % 256, n.ip % 256,
             n.port / 256 % 256, n.port % 256, (hops + 1) / 256 % 256, (hops + 1) % 256]
  {
    FourBytes(n.id);
    FourBytes(n.ip);
    TwoBytes(n.port);
    TwoBytes(hops + 1);
  }

  /** Past what a short holds the hops wrap: from 32767 the next count is -32768, which is sent as 0x8000. */
  lemma HopsWrap(n: NodeInfo, big: bool)
    ensures EncodeReply(n, 32767, big)[11..13] == Store(0x8000, 2, big)
    ensures DecodeReply(EncodeReply(n, 32767, big), big) == (n, -32768)
  {
    ReplyFields(n, 32767, big);
    ReplyRoundTrip(n, 32767, big);
  }

  /** Any other answer than 'Y' is read as the empty node. */
  lemma OtherReplyIsEmpty(s: seq<byte>, big: bool)
    requires |s| == REPLY_LENGTH && s[0] != 'Y' as int
    ensures DecodeReply(s, big).0 == NodeInfo(0, 0, 0)
  {
  }

  /** A relay decodes the reply it gets and encodes what it decoded for whoever asked it. */
  function RelayReply(s: seq<byte>, big: bool): (r: seq<byte>)
    requires |s| == REPLY_LENGTH
    ensures |r| == REPLY_LENGTH
  {
    var (n, hops) := DecodeReply(s, big);
    EncodeReply(n, hops, big)
  }

  /** The reply as it reaches the first requester, when the request was forwarded to k nodes. */
  function ReplyAfter(n: NodeInfo, k: nat, big: bool): (s: seq<byte>)
    requires k >= 1
    ensures |s| == REPLY_LENGTH
  {
    if k == 1 then EncodeReply(n, 0, big) else RelayReply(ReplyAfter(n, k - 1, big), big)
  }

  lemma ShortCountsOn(k: int)
    ensures ToShort(ToShort(k) + 1) == ToShort(k + 1)
  {
  }

  /** One relay: same node, one hop more. */
  lemma RelayCountsOne(s: seq<byte>, n: NodeInfo, k: int, big: bool)
    requires |s| == REPLY_LENGTH && DecodeReply(s, big) == (n, ToShort(k))
    ensures DecodeReply(RelayReply(s, big), big) == (n, ToShort(k + 1))
  {
    ReplyRoundTrip(n, ToShort(k), big);
    ShortCountsOn(k);
  }

  /** Over a chain of any length the node information survives and the hops count the nodes, in 16 bits. */
  lemma {:induction false} ReplyCountsForwards(n: NodeInfo, k: nat, big: bool)
    requires k >= 1
    ensures DecodeReply(ReplyAfter(n, k, big), big) == (n, ToShort(k))
  {
    if k == 1 {
      ReplyRoundTrip(n, 0, big);
    } else {
      ReplyCountsForwards(n, k - 1, big);
      RelayCountsOne(ReplyAfter(n, k - 1, big), n, k - 1, big);
    }
  }

  /** The count is right exactly for chains that fit a short. */
  lemma WhenHopsAreRight(n: NodeInfo, k: nat, big: bool)
    requires k >= 1
    ensures DecodeReply(ReplyAfter(n, k, big), big).1 == k <==> k <= 32767
  {
    ReplyCountsForwards(n, k, big);
  }

  /** Everyone's full address. */
  ghost predicate Addresses(nodes: Nodes, book: map<Id, NodeInfo>) {
    nodes.Keys <= book.Keys && forall n :: n in book ==> book[n].id == n
  }

  /** handle_succ_request in a network that stands still: what n writes back when asked for x. */
  ghost function Served(nodes: Nodes, useFingers: bool, n: Id, x: Id,
                        book: map<Id, NodeInfo>, big: bool): (s: seq<byte>)
    requires Sound(nodes) && n in nodes && Addresses(nodes, book)
    ensures |s| == REPLY_LENGTH
    decreases Dist(n, x)
  {
    ForwardStaysInside(nodes, useFingers, n, x);
    match FindSuccessor(nodes[n], x, useFingers)
    case Answer(a) => EncodeReply(book[a], 0, big)
    case Forward(to) => RelayReply(Served(nodes, useFingers, to, x, book, big), big)
  }

  /** What n writes is the reply as it comes back over as many relays as its lookup is forwarded to. */
  ghost predicate WritesReply(nodes: Nodes, useFingers: bool, n: Id, x: Id, book: map<Id, NodeInfo>, big: bool)
    requires Sound(nodes) && n in nodes && Addresses(nodes, book)
  {
    var r := Follow(nodes, useFingers, n, x);
    Served(nodes, useFingers, n, x, book, big) == ReplyAfter(book[r.answer], r.forwards + 1, big)
  }

  lemma ServedViaRelay(nodes: Nodes, useFingers: bool, n: Id, to: Id, x: Id, book: map<Id, NodeInfo>, big: bool)
    requires Sound(nodes) && n in nodes && to in nodes && Addresses(nodes, book) && Connected(nodes[n])
    requires FindSuccessor(nodes[n], x, useFingers) == Forward(to)
    ensures Served(nodes, useFingers, n, x, book, big) == RelayReply(Served(nodes, useFingers, to, x, book, big), big)
  {
  }

  lemma ReplyViaRelay(n: NodeInfo, k: nat, big: bool)
    requires k >= 1
    ensures ReplyAfter(n, k + 1, big) == RelayReply(ReplyAfter(n, k, big), big)
  {
  }

  lemma AnswererWrites(nodes: Nodes, useFingers: bool, n: Id, x: Id, book: map<Id, NodeInfo>, big: bool)
    requires Sound(nodes) && n in nodes && Addresses(nodes, book) && Connected(nodes[n])
    requires FindSuccessor(nodes[n], x, useFingers).Answer?
    ensures WritesReply(nodes, useFingers, n, x, book, big)
  {
    ForwardStaysInside(nodes, useFingers, n, x);
  }

  lemma RelayWrites(nodes: Nodes, useFingers: bool, n: Id, to: Id, x: Id, book: map<Id, NodeInfo>, big: bool)
    requires Sound(nodes) && n in nodes && to in nodes && Addresses(nodes, book) && Connected(nodes[n])
    requires FindSuccessor(nodes[n], x, useFingers) == Forward(to)
    requires WritesReply(nodes, useFingers, to, x, book, big)
    ensures WritesReply(nodes, useFingers, n, x, book, big)
  {
    var r := Follow(nodes, useFingers, to, x);
    RouteViaRelay(nodes, useFingers, n, to, x);
    ServedViaRelay(nodes, useFingers, n, to, x, book, big);
    ReplyViaRelay(book[r.answer], r.forwards + 1, big);
  }

  lemma {:induction false} ServedIsReplyAfter(nodes: Nodes, useFingers: bool, n: Id, x: Id,
                                              book: map<Id, NodeInfo>, big: bool)
    requires Sound(nodes) && n in nodes && Addresses(nodes, book)
    ensures WritesReply(nodes, useFingers, n, x, book, big)
    decreases Dist(n, x)
  {
    ForwardStaysInside(nodes, useFingers, n, x);
    match FindSuccessor(nodes[n], x, useFingers)
    case Answer(a) => AnswererWrites(nodes, useFingers, n, x, book, big);
    case Forward(to) =>
      ServedIsReplyAfter(nodes, useFingers, to, x, book, big);
      RelayWrites(nodes, useFingers, n, to, x, book, big);
  }

  /** End to end on an ideal ring with correct fingers: the bytes the requester reads name the first
      member at or after x with its address, and the number of nodes asked, which never overflows. */
  lemma RequesterReadsTheTruth(nodes: Nodes, n: Id, x: Id, book: map<Id, NodeInfo>, big: bool)
    requires Sound(nodes) && IdealRing.Ideal(nodes) && Hops.AllFingersRight(nodes)
    requires n in nodes && Addresses(nodes, book)
    ensures var (info, hops) := DecodeReply(Served(nodes, true, n, x, book, big), big);
            && Members.IsFirstAtOrAfter(nodes.Keys, x, info.id) && info == book[info.id]
            && hops == Follow(nodes, true, n, x).forwards + 1 && hops <= 63
  {
    var r := Follow(nodes, true, n, x);
    ServedIsReplyAfter(nodes, true, n, x, book, big);
    ReplyCountsForwards(book[r.answer], r.forwards + 1, big);
    Hops.AtMost62Forwards(nodes, n, x);
    IdealRing.LookupIsRight(nodes, true, n, x);
  }
}
