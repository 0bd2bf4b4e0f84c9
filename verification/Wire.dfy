/** The values that travel between a sender, the Spread daemon and a receiver. */
module Wire {

  datatype Option<+T> = None | Some(value: T)

  /** The exceptions of the source, by class, and those of a lack of memory. */
  datatype Error = IllegalState | ProtocolError | CommError | InvalidArgument | Interrupted | OutOfMemory

  datatype Result<+T> = Ok(value: T) | Err(error: Error)

  const TWO32 := 0x1_0000_0000

  /** C++ `unsigned int`. */
  type uint32 = x: int | 0 <= x < TWO32

  function Min(a: int, b: int): int {
    if a <= b then a else b
  }

  /** A scope is its list of components; a super-scope is a prefix of it. */
  type Scope = seq<string>

  datatype EventId = EventId(sender: string, seqNo: nat)

  /** What `fillNotificationHeader` adds to a notification record. */
  datatype Header = Header(scope: Scope, wireSchema: string, metaData: string)

  const NO_HEADER := Header([], "", "")

  datatype Notification = Notification(id: EventId, header: Header, data: string)

  datatype Fragment = Fragment(notification: Notification, part: nat, count: nat)

  /** An event after conversion: identity, meta data and wire representation. */
  datatype Event = Event(id: EventId, header: Header, payload: string)

  /** The complete notification record of an event. */
  function Whole(e: Event): Notification {
    Notification(e.id, e.header, e.payload)
  }

  // ---------------------------------------------------------------- pieces of an event

  /** An event together with the way a sender has cut its payload. */
  datatype Packet = Packet(event: Event, parts: seq<string>)

  function Flatten(parts: seq<string>): string {
    if parts == [] then "" else Flatten(parts[..|parts| - 1]) + parts[|parts| - 1]
  }

  predicate WellCut(p: Packet) {
    |p.parts| >= 1 && Flatten(p.parts) == p.event.payload
  }

  predicate AllWellCut(sent: seq<Packet>) {
    forall i | 0 <= i < |sent| :: WellCut(sent[i])
  }

  /** The complete records of the events of some packets. */
  function Wholes(sent: seq<Packet>): seq<Notification> {
    seq(|sent|, i requires 0 <= i < |sent| => Whole(sent[i].event))
  }

  /** The j-th message of a packet: only the first one carries the header. */
  function Piece(p: Packet, j: nat): Fragment
    requires j < |p.parts|
  {
    Fragment(Notification(p.event.id, if j == 0 then p.event.header else NO_HEADER, p.parts[j]),
             j, |p.parts|)
  }

  function Pieces(p: Packet): seq<Fragment> {
    seq(|p.parts|, j requires 0 <= j < |p.parts| => Piece(p, j))
  }

  predicate IsPieceOf(f: Fragment, p: Packet) {
    f.part < |p.parts| && f == Piece(p, f.part)
  }

  /** Every piece occurs exactly once among the pieces of its packet. */
  lemma PiecesCount(p: Packet, f: Fragment)
    ensures multiset(Pieces(p))[f] == if IsPieceOf(f, p) then 1 else 0
  {
    forall i, j | 0 <= i < j < |p.parts| ensures Pieces(p)[i] != Pieces(p)[j] {
      assert Pieces(p)[i].part == i && Pieces(p)[j].part == j;
    }
    DistinctCount(Pieces(p), f);
    if IsPieceOf(f, p) {
      assert Pieces(p)[f.part] == f;
    }
  }

  lemma {:induction false} DistinctCount<T>(s: seq<T>, x: T)
    requires forall i, j :: 0 <= i < j < |s| ==> s[i] != s[j]
    ensures multiset(s)[x] == if x in s then 1 else 0
  {
    if s == [] {
    } else {
      var t := s[..|s| - 1];
      assert s == t + [s[|s| - 1]];
      DistinctCount(t, x);
    }
  }

  lemma {:induction false} FlattenConcat(a: seq<string>, b: seq<string>)
    ensures Flatten(a + b) == Flatten(a) + Flatten(b)
    decreases |b|
  {
    if b == [] {
      assert a + b == a;
    } else {
      var n := |b| - 1;
      assert (a + b)[..|a + b| - 1] == a + b[..n];
      FlattenConcat(a, b[..n]);
      assert Flatten(a + b) == Flatten(a) + Flatten(b[..n]) + b[n];
    }
  }

  // ---------------------------------------------------------------- assembly keys

  /** The pool key of an event: its sender id and four little-endian bytes of its number. */
  function Key(id: EventId): string {
    id.sender + [(id.seqNo % 0x100) as char, (id.seqNo / 0x100 % 0x100) as char,
                 (id.seqNo / 0x10000 % 0x100) as char, (id.seqNo / 0x1000000 % 0x100) as char]
  }

  function KeyOf(f: Fragment): string {
    Key(f.notification.id)
  }

  /** Peeling off the lowest byte; `d` is the number of values of the remaining bytes. */
  lemma LowByte(n: nat, d: nat)
    requires d == 0x100 || d == 0x10000 || d == 0x1000000
    ensures n % (0x100 * d) == n % 0x100 + 0x100 * (n / 0x100 % d)
  {
  }

  /** Numbers agree modulo 2^32 exactly when the four pushed bytes agree. */
  lemma SameDigits(m: nat, n: nat)
    ensures m % TWO32 == n % TWO32 <==>
            && m % 0x100 == n % 0x100
            && m / 0x100 % 0x100 == n / 0x100 % 0x100
            && m / 0x10000 % 0x100 == n / 0x10000 % 0x100
            && m / 0x1000000 % 0x100 == n / 0x1000000 % 0x100
  {
    Shifts(m);
    Shifts(n);
    SameLow(m, n, 0x1000000);
    SameLow(m / 0x100, n / 0x100, 0x10000);
    SameLow(m / 0x10000, n / 0x10000, 0x100);
  }

  /** Shifting by two or three bytes is shifting by one byte repeatedly. */
  lemma Shifts(n: nat)
    ensures n / 0x100 / 0x100 == n / 0x10000 && n / 0x10000 / 0x100 == n / 0x1000000
  {
  }

  lemma SameLow(m: nat, n: nat, d: nat)
    requires d == 0x100 || d == 0x10000 || d == 0x1000000
    ensures m % (0x100 * d) == n % (0x100 * d) <==>
            m % 0x100 == n % 0x100 && m / 0x100 % d == n / 0x100 % d
  {
    LowByte(m, d);
    LowByte(n, d);
  }

  /** Two events share an assembly key exactly when sender and number modulo 2^32 agree. */
  lemma KeyExact(a: EventId, b: EventId)
    ensures Key(a) == Key(b) <==> a.sender == b.sender && a.seqNo % TWO32 == b.seqNo % TWO32
  {
    SameDigits(a.seqNo, b.seqNo);
    var k, l := Key(a), Key(b);
    var n := |a.sender|;
    if k == l {
      assert |k| == n + 4 && |l| == |b.sender| + 4;
      assert k[..n] == a.sender && l[..n] == b.sender;
      assert k[n] == l[n] && k[n + 1] == l[n + 1] && k[n + 2] == l[n + 2] && k[n + 3] == l[n + 3];
    }
  }
}
