/** Records cut into byte streams by partial writes and rejoined by partial reads
    with a read-ahead cache, over one healthy connection. */
module TcpFraming {
  import opened Wrappers

  type Byte = b: int | 0 <= b < 256

  const HEADER := 8
  const SEND := 1

  datatype Record = Record(header: seq<Byte>, payload: seq<Byte>)

  /** The record type and the payload size, as stored in a header. */
  function Kind(h: seq<Byte>): int
    requires |h| == HEADER
  {
    h[1]
  }

  function Size(h: seq<Byte>): nat
    requires |h| == HEADER
  {
    var b0: int, b1: int, b2: int, b3: int := h[4], h[5], h[6], h[7];
    b0 + 0x100 * b1 + 0x1_0000 * b2 + 0x100_0000 * b3
  }

  /** A SEND record whose payload fits the fragment buffer. */
  ghost predicate Fits(r: Record, room: nat)
  {
    |r.header| == HEADER && Kind(r.header) == SEND && Size(r.header) == |r.payload| <= room
  }

  ghost predicate AllFit(rs: seq<Record>, room: nat)
  {
    forall i | 0 <= i < |rs| :: Fits(rs[i], room)
  }

  /** The bytes of a list of records. */
  function Encode(rs: seq<Record>): seq<Byte>
  {
    if rs == [] then [] else rs[0].header + rs[0].payload + Encode(rs[1..])
  }

  lemma {:induction false} EncodeAppend(rs: seq<Record>, r: Record)
    ensures Encode(rs + [r]) == Encode(rs) + (r.header + r.payload)
  {
    if rs == [] {
      assert [r][1..] == [] && Encode([r]) == r.header + r.payload + [];
    } else {
      EncodeAppend(rs[1..], r);
      assert (rs + [r])[1..] == rs[1..] + [r];
      var tail := Encode(rs[1..]);
      assert rs[0].header + rs[0].payload + (tail + (r.header + r.payload))
          == rs[0].header + rs[0].payload + tail + (r.header + r.payload);
    }
  }

  /** A stream that starts with a whole header starts with the first record's header. */
  lemma HeaderFirst(h: seq<Byte>, rest: seq<Byte>, todo: seq<Record>, room: nat)
    requires |h| == HEADER && AllFit(todo, room) && h + rest == Encode(todo)
    ensures todo != [] && h == todo[0].header && rest == todo[0].payload + Encode(todo[1..])
  {
    assert |Encode(todo)| >= HEADER;
    var r := todo[0];
    assert Fits(r, room);
    var tail := r.payload + Encode(todo[1..]);
    assert Encode(todo) == r.header + tail;
    assert h == (h + rest)[..HEADER] == (r.header + tail)[..HEADER] == r.header;
    assert rest == (h + rest)[HEADER..] == (r.header + tail)[HEADER..] == tail;
  }

  /** Decoding is unique: a header with as many further bytes as it announces is the first record. */
  lemma RecordFirst(h: seq<Byte>, p: seq<Byte>, rest: seq<Byte>, todo: seq<Record>, room: nat)
    requires |h| == HEADER && AllFit(todo, room) && |p| == Size(h) && h + p + rest == Encode(todo)
    ensures todo != [] && todo[0] == Record(h, p) && rest == Encode(todo[1..])
  {
    hide Size;
    assert h + (p + rest) == Encode(todo);
    HeaderFirst(h, p + rest, todo, room);
    assert Fits(todo[0], room);
    var tail := Encode(todo[1..]);
    assert p == (p + rest)[..|p|] == (todo[0].payload + tail)[..|p|];
    assert rest == (p + rest)[|p|..] == (todo[0].payload + tail)[|p|..];
  }

  lemma EncodeEmpty(todo: seq<Record>, room: nat)
    requires AllFit(todo, room) && Encode(todo) == []
    ensures todo == []
  {
    assert todo != [] ==> Fits(todo[0], room);
  }

  lemma TailFits(rs: seq<Record>, k: nat, room: nat)
    requires k < |rs| && AllFit(rs[k..], room)
    ensures rs[k..][1..] == rs[k + 1..] && rs[k..][0] == rs[k] && AllFit(rs[k + 1..], room)
  {
    var tail := rs[k + 1..];
    forall i | 0 <= i < |tail| ensures Fits(tail[i], room) { assert rs[k..][i + 1] == tail[i]; }
  }

  lemma SliceFront(s: seq<Byte>, pos: nat, len: nat, n: nat)
    requires pos + len <= |s| && n <= len
    ensures s[pos..pos + len][..n] == s[pos..pos + n]
  {
  }

  lemma Assoc(a: seq<Byte>, b: seq<Byte>, c: seq<Byte>)
    ensures a + (b + c) == a + b + c
  {
  }

  // ---------- The socket ----------

  /** One direction of a connection: bytes accepted by the kernel and not yet read. */
  class Socket {
    const eager: bool   // the kernel takes and gives as much as it can
    var wire: seq<Byte>
    ghost var full: bool   // the last write was not taken as a whole
    ghost var dry: bool    // the last read gave nothing

    constructor (eager: bool)
      ensures wire == [] && this.eager == eager
    {
      wire, this.eager, full, dry := [], eager, false, false;
    }

    /** `writev`: accepts any prefix of the bytes, or would block (-1). */
    method Writev(bytes: seq<Byte>) returns (cnt: int)
      modifies this
      ensures -1 <= cnt <= |bytes|
      ensures wire == old(wire) + if cnt < 0 then [] else bytes[..cnt]
      ensures (eager ==> cnt == |bytes|) && (full <==> cnt < |bytes|) && dry == old(dry)
    {
      var n :| -1 <= n <= |bytes| && (eager ==> n == |bytes|);
      cnt := n;
      full := cnt < |bytes|;
      if cnt >= 0 { wire := wire + bytes[..cnt]; }
    }

    /** `readv`: at least one and at most room bytes, or would block (-1), as it must on an empty wire. */
    method Readv(room: nat) returns (cnt: int, bytes: seq<Byte>)
      modifies this
      ensures cnt == -1 || 0 < cnt <= room
      ensures cnt == -1 ==> wire == old(wire) && bytes == []
      ensures cnt > 0 ==> |bytes| == cnt && bytes + wire == old(wire)
      ensures (eager && |old(wire)| <= room ==> wire == []) && (dry <==> cnt == -1) && full == old(full)
    {
      cnt, bytes := -1, [];
      if 0 < |wire| && 0 < room {
        var most := if room < |wire| then room else |wire|;
        var n :| 0 <= n <= most && (eager ==> n == most);
        if n > 0 {
          cnt, bytes := n, wire[..n];
          wire := wire[n..];
        }
      }
      dry := cnt == -1;
    }
  }

  // ---------- The sending side ----------

  /** A fragment being sent: `iov_ptr` points at entry idx, cnt entries are left. */
  datatype Frag = Frag(iov: seq<seq<Byte>>, idx: nat, cnt: nat)

  ghost predicate FragOk(f: Frag)
  {
    f.idx + f.cnt == |f.iov|
  }

  function Join(iov: seq<seq<Byte>>, i: nat): seq<Byte>
    requires i <= |iov|
    decreases |iov| - i
  {
    if i == |iov| then [] else iov[i] + Join(iov, i + 1)
  }

  /** The bytes of the fragment that are still to be written. */
  function Remaining(f: Frag): seq<Byte>
    requires FragOk(f)
  {
    Join(f.iov, f.idx)
  }

  lemma {:induction false} JoinFrom(a: seq<seq<Byte>>, b: seq<seq<Byte>>, i: nat)
    requires |a| == |b| && i <= |a| && forall j | i <= j < |a| :: a[j] == b[j]
    ensures Join(a, i) == Join(b, i)
    decreases |a| - i
  {
    if i < |a| { JoinFrom(a, b, i + 1); }
  }

  /** `mca_btl_tcp2_frag_send`: done exactly when every byte is written; the rest stays to be sent. */
  method FragSend(f: Frag, s: Socket) returns (g: Frag, done: bool)
    requires FragOk(f)
    modifies s
    ensures FragOk(g) && s.wire + Remaining(g) == old(s.wire) + Remaining(f)
    ensures Remaining(f) != [] ==> (done <==> Remaining(g) == [])
    ensures (s.eager ==> Remaining(g) == []) && (Remaining(g) != [] ==> s.full)
  {
    g := f;
    var bytes := Remaining(f);
    var cnt := s.Writev(bytes);
    if cnt < 0 { return g, false; }
    ghost var n := cnt;
    var i, vecs := 0, g.cnt;
    while i < vecs
      invariant 0 <= i <= vecs && FragOk(g) && g.cnt == vecs - i
      invariant 0 <= cnt <= n && n - cnt <= |bytes| && Remaining(g) == bytes[n - cnt..]
      invariant i == vecs ==> cnt == 0
    {
      if cnt >= |g.iov[g.idx]| {
        cnt := cnt - |g.iov[g.idx]|;
        g := g.(idx := g.idx + 1, cnt := g.cnt - 1);
      } else {
        ghost var was := g;
        g := g.(iov := g.iov[g.idx := g.iov[g.idx][cnt..]]);
        JoinFrom(was.iov, g.iov, g.idx + 1);
        cnt := 0;
        break;
      }
      i := i + 1;
    }
    done := g.cnt == 0;
  }

  /** The bytes of the fragments waiting behind the current one. */
  function Queued(fs: seq<Frag>): seq<Byte>
    requires forall i | 0 <= i < |fs| :: FragOk(fs[i])
  {
    if fs == [] then [] else Remaining(fs[0]) + Queued(fs[1..])
  }

  lemma {:induction false} QueuedAppend(fs: seq<Frag>, f: Frag)
    requires (forall i | 0 <= i < |fs| :: FragOk(fs[i])) && FragOk(f)
    ensures Queued(fs + [f]) == Queued(fs) + Remaining(f)
  {
    hide Remaining;
    if fs == [] {
      assert [f][1..] == [] && Queued([f]) == Remaining(f) + [];
    } else {
      QueuedAppend(fs[1..], f);
      assert (fs + [f])[1..] == fs[1..] + [f];
      Assoc(Remaining(fs[0]), Queued(fs[1..]), Remaining(f));
    }
  }

  /** The sending half of an endpoint. */
  class Sender {
    var connected: bool
    var current: Option<Frag>
    var frags: seq<Frag>

    /** A fragment waits in the list only behind a current one, once connected. */
    ghost predicate Valid()
      reads this
    {
      && (current.Some? ==> FragOk(current.value) && Remaining(current.value) != [])
      && (forall i | 0 <= i < |frags| :: FragOk(frags[i]) && Remaining(frags[i]) != [])
      && (connected && current.None? ==> frags == [])
      && (!connected ==> current.None?)
    }

    ghost function Pending(): seq<Byte>
      requires Valid()
      reads this
    {
      (if current.Some? then Remaining(current.value) else []) + Queued(frags)
    }

    constructor ()
      ensures Valid() && Pending() == [] && !connected
    {
      connected, current, frags := false, None, [];
    }

    /** `mca_btl_tcp2_endpoint_connected`. */
    method Connected()
      requires Valid() && !connected
      modifies this
      ensures Valid() && connected && Pending() == old(Pending())
    {
      connected := true;
      if |frags| > 0 {
        if current.None? { current, frags := Some(frags[0]), frags[1..]; }
      }
    }

    /** `mca_btl_tcp2_endpoint_send`: the fragment's bytes follow everything sent before.  Only a fragment with priority
        on an idle connection is written at once. */
    method Send(f: Frag, priority: bool, s: Socket)
      requires Valid() && FragOk(f) && Remaining(f) != []
      modifies this, s
      ensures Valid() && s.wire + Pending() == old(s.wire + Pending()) + Remaining(f)
      ensures connected == old(connected)
      ensures !connected || old(current).Some? || !priority ==> s.wire == old(s.wire)
      ensures connected && old(current).None? && priority ==> Pending() == [] || (s.full && !s.eager)
    {
      hide Remaining;
      QueuedAppend(frags, f);
      if !connected {
        frags := frags + [f];
      } else if current.None? {
        var g, done := f, false;
        if priority { g, done := FragSend(f, s); }
        if !done { current := Some(g); }
        assert old(s.wire + Pending()) == old(s.wire);
        assert s.wire + Pending() == s.wire + Remaining(g);
      } else {
        frags := frags + [f];
      }
    }

    /** The CONNECTED branch of the send handler: write until the socket blocks or nothing is left. */
    method SendHandler(s: Socket)
      requires Valid() && connected
      modifies this, s
      ensures Valid() && connected && s.wire + Pending() == old(s.wire + Pending())
      ensures Pending() == [] || (s.full && !s.eager)
    {
      hide Remaining;
      while current.Some?
        invariant Valid() && connected && s.wire + Pending() == old(s.wire + Pending())
        decreases |frags|, current.Some?
      {
        ghost var wire, rest := s.wire, Queued(frags);
        var g, done := FragSend(current.value, s);
        Assoc(s.wire, Remaining(g), rest);
        Assoc(wire, Remaining(current.value), rest);
        if !done {
          current := Some(g);
          break;
        }
        if frags == [] { current := None; } else { current, frags := Some(frags[0]), frags[1..]; }
      }
    }
  }

  // ---------- The receiving side ----------

  /** Where an iovec entry or a segment points: the fragment's header, its payload buffer, the endpoint cache, or memory
      that some earlier use of the fragment left it pointing to. */
  datatype Place = Header | Data | Cache | Foreign(bytes: seq<Byte>)

  datatype Span = Span(place: Place, base: nat, len: nat)

  /** What the free list hands out: a fragment with whatever its last use, a receive or a send, left in it. */
  datatype Fragment = Fragment(header: seq<Byte>, data: seq<Byte>, segment: Span)

  /** The receiving half of an endpoint with its current fragment. */
  class Receiver {
    const room: nat
    const cacheSize: nat

    // the endpoint
    var cache: seq<Byte>
    var cachePos: nat
    var cacheLen: nat
    var partial: bool         // `endpoint_recv_frag` is set
    var delivered: seq<Record> // receive callbacks so far

    // the fragment: its memory, the entry `iov_ptr` points at, `iov_cnt`, `iov_idx`, and `segments[0]`
    var header: seq<Byte>
    var data: seq<Byte>
    var iov: Span
    var iovCnt: nat
    var iovIdx: nat
    var segment: Span

    // for every record begun, the length of the segment its fragment came with from the free list, or `None` when the
    // fragment of the record before was used again
    ghost var handed: seq<Option<nat>>

    ghost predicate Memory()
      reads this
    {
      && |header| == HEADER && |data| == room && |cache| == cacheSize
      && cachePos + cacheLen <= cacheSize && (cacheLen == 0 ==> cachePos == 0)
      && segment.base + segment.len <= Extent(segment.place)
    }

    function Extent(p: Place): nat
    {
      match p
      case Header => HEADER
      case Data => room
      case Cache => cacheSize
      case Foreign(bytes) => |bytes|
    }

    ghost predicate FragmentOk(f: Fragment)
    {
      |f.header| == HEADER && |f.data| == room && f.segment.base + f.segment.len <= Extent(f.segment.place)
    }

    /** A fragment in progress: part of the header, or the header and part of the payload. */
    ghost predicate Valid()
      reads this
    {
      && Memory() && iovCnt == 1 && 0 < iov.len
      && (iovIdx == 0 || iovIdx == 1)
      && (if iovIdx == 0 then iov.place == Header && iov.base + iov.len == HEADER
          else iov.place == Data && iov.base + iov.len == Size(header) <= room
               && Kind(header) == SEND && segment == Span(Data, 0, Size(header)))
    }

    /** The bytes of the current fragment received so far. */
    ghost function Partial(): seq<Byte>
      requires Valid()
      reads this
    {
      if iovIdx == 0 then header[..iov.base] else header + data[..iov.base]
    }

    ghost function Cached(): seq<Byte>
      requires Memory()
      reads this
    {
      cache[cachePos..cachePos + cacheLen]
    }

    /** What a segment shows at this moment. */
    function Contents(p: Span): seq<Byte>
      requires Memory() && p.base + p.len <= Extent(p.place)
      reads this
    {
      match p.place
      case Header => header[p.base..p.base + p.len]
      case Data => data[p.base..p.base + p.len]
      case Cache => cache[p.base..p.base + p.len]
      case Foreign(bytes) => bytes[p.base..p.base + p.len]
    }

    constructor (room: nat, cacheSize: nat)
      ensures Valid() && Partial() == [] && Cached() == [] && delivered == [] && handed == [] && !partial
      ensures this.room == room && this.cacheSize == cacheSize
    {
      this.room, this.cacheSize := room, cacheSize;
      cache, cachePos, cacheLen := seq(cacheSize, _ => 0), 0, 0;
      partial, delivered, handed := false, [], [];
      header, data := seq(HEADER, _ => 0), seq(room, _ => 0);
      iov, iovCnt, iovIdx := Span(Header, 0, HEADER), 1, 0;
      segment := Span(Data, 0, 0);
    }

    /** `MCA_BTL_TCP_FRAG_INIT_DST`: a fragment waiting for a header. */
    method InitDst()
      requires Memory()
      modifies this`iov, this`iovCnt, this`iovIdx
      ensures Valid() && Partial() == [] && Cached() == old(Cached()) && iovIdx == 0
    {
      iov, iovCnt, iovIdx := Span(Header, 0, HEADER), 1, 0;
    }

    /** `MCA_BTL_TCP_FRAG_ALLOC_MAX` or `_EAGER`, then the initialization, which leaves the segment as it is. */
    method Allocate(f: Fragment)
      requires Memory() && FragmentOk(f)
      modifies this`header, this`data, this`segment, this`iov, this`iovCnt, this`iovIdx, this`handed
      ensures Valid() && Partial() == [] && Cached() == old(Cached()) && iovIdx == 0 && segment == f.segment
      ensures handed == old(handed) + [Some(f.segment.len)]
    {
      header, data, segment := f.header, f.data, f.segment;
      handed := handed + [Some(f.segment.len)];
      InitDst();
    }

    /** The fragment is used again for the next record. */
    method Reuse()
      requires Memory()
      modifies this`iov, this`iovCnt, this`iovIdx, this`handed
      ensures Valid() && Partial() == [] && Cached() == old(Cached()) && iovIdx == 0 && handed == old(handed) + [None]
    {
      handed := handed + [None];
      InitDst();
    }

    /** Copy bytes to where the current entry points. */
    method Store(bytes: seq<Byte>)
      requires Valid() && |bytes| <= iov.len
      modifies this`header, this`data
      ensures Valid() && Held(|bytes|) == old(Partial()) + bytes && Cached() == old(Cached())
      ensures iovIdx == 1 ==> header == old(header)
    {
      hide Size, Kind;
      if iov.place == Header {
        header := header[..iov.base] + bytes + header[iov.base + |bytes|..];
      } else {
        data := data[..iov.base] + bytes + data[iov.base + |bytes|..];
      }
    }
  
    /** Fetched cnt bytes: those the current entry has room for are in place, the others start the cache. */
    ghost predicate Loaded(cnt: nat)
      reads this
    {
      && |header| == HEADER && |data| == room && |cache| == cacheSize
         && segment.base + segment.len <= Extent(segment.place)
      && iovCnt == 1 && 0 < iov.len && cachePos + Surplus(cnt) <= cacheSize && (Surplus(cnt) == 0 ==> cachePos == 0)
      && (iovIdx == 0 || iovIdx == 1)
      && (if iovIdx == 0 then iov.place == Header && iov.base + iov.len == HEADER
          else Kind(header) == SEND && Size(header) <= room && (WholeInCache(cnt) || InBuffer()))
    }

    ghost predicate InBuffer()
      reads this
      requires |header| == HEADER
    {
      iov.place == Data && iov.base + iov.len == Size(header) && segment == Span(Data, 0, Size(header))
    }

    ghost predicate WholeInCache(cnt: nat)
      reads this
      requires |header| == HEADER
    {
      iov == segment == Span(Cache, iov.base, Size(header)) && iov.len <= cnt && iov.base + iov.len <= cacheSize
    }

    ghost function Surplus(cnt: nat): nat
      reads this
    {
      if cnt < iov.len then 0 else cnt - iov.len
    }

    ghost function Front(cnt: nat): seq<Byte>
      requires Loaded(cnt)
      reads this
    {
      var n := cnt - Surplus(cnt);
      if iovIdx == 0 then header[..iov.base + n]
      else if iov.place == Data then header + data[..iov.base + n]
      else header + cache[iov.base..iov.base + iov.len]
    }

    ghost function Left(cnt: nat): seq<Byte>
      requires Loaded(cnt)
      reads this
    {
      cache[cachePos..cachePos + Surplus(cnt)]
    }

    /** The fragment's current entry is full: a whole header, or a header and a payload the segment shows. */
    ghost predicate Filled()
      reads this
    {
      && Memory() && iovCnt == 0 && (iovIdx == 1 || iovIdx == 2)
      && (iovIdx == 2 ==> segment.len == Size(header) > 0)
    }

    ghost function Gathered(): seq<Byte>
      requires Filled()
      reads this
    {
      if iovIdx == 1 then header else header + Contents(segment)
    }

    /** Step over bytes taken from the cache. */
    method Consume(length: nat)
      requires Memory() && length <= cacheLen
      modifies this`cachePos, this`cacheLen
      ensures Memory() && cacheLen == old(cacheLen) - length && Cached() == old(Cached())[length..]
    {
      hide Extent;
      cachePos := cachePos + length;
      cacheLen := cacheLen - length;
      if cacheLen == 0 { cachePos := 0; }
    }

    /** What the fragment holds once n more bytes are stored. */
    ghost function Held(n: nat): seq<Byte>
      requires Valid() && n <= iov.len
      reads this
    {
      if iovIdx == 0 then header[..iov.base + n] else header + data[..iov.base + n]
    }

    /** Copy from the cache as much as the entry takes. */
    method CopyFromCache(length: nat)
      requires Valid() && cacheLen != 0 && length == (if cacheLen > iov.len then iov.len else cacheLen)
      modifies this`header, this`data, this`cachePos, this`cacheLen
      ensures Loaded(old(cacheLen))
      ensures Front(old(cacheLen)) == old(Partial() + Cached()[..length])
          && Left(old(cacheLen)) == old(Cached()[length..])
    {
      hide Size, Kind, Extent, Loaded, Front, Left;
      ghost var cnt, held := cacheLen, Partial() + Cached()[..length];
      var bytes := cache[cachePos..cachePos + length];
      SliceFront(cache, cachePos, cacheLen, length);
      Store(bytes);
      Consume(length);
      assert Held(length) == held;
      AfterCopy(cnt, length);
    }

    lemma AfterCopy(cnt: nat, length: nat)
      requires Valid() && length == (if cnt > iov.len then iov.len else cnt) && cacheLen == cnt - length
      ensures Loaded(cnt) && Front(cnt) == Held(length) && Left(cnt) == Cached()
    {
      hide Size, Kind, Extent;
    }

    /** Point the segment into the cache, where the whole payload is. */
    method ShowInCache(length: nat)
      requires Valid() && iovIdx == 1 && iov.base == 0 && length == iov.len <= cacheLen
      modifies this`iov, this`segment, this`cachePos, this`cacheLen
      ensures Loaded(old(cacheLen)) && segment.place == Cache
      ensures Front(old(cacheLen)) == old(Partial() + Cached()[..length])
          && Left(old(cacheLen)) == old(Cached()[length..])
    {
      hide Size, Kind;
      SliceFront(cache, cachePos, cacheLen, length);
      assert Partial() == header;
      segment := segment.(place := Cache, base := cachePos);
      iov := iov.(place := Cache, base := cachePos);
      Consume(length);
    }

    /** Serve the current entry from the cache; with dontCopy a payload that is there as a whole stays there. */
    method FromCache(dontCopy: bool) returns (cnt: nat)
      requires Valid() && (dontCopy ==> iovIdx == 1 && iov.base == 0) && cacheLen != 0
      modifies this
      ensures delivered == old(delivered) && partial == old(partial) && handed == old(handed) && iovIdx == old(iovIdx)
      ensures iovIdx == 0 ==> segment == old(segment)
      ensures Loaded(cnt) && Front(cnt) + Left(cnt) == old(Partial() + Cached())
      ensures dontCopy && old(cacheLen) >= old(iov.len) ==> segment.place == Cache && data == old(data)
      ensures !dontCopy || old(cacheLen) < old(iov.len) ==> segment == old(segment)
    {
      hide Size, Kind, Loaded, Front, Left, Partial;
      cnt := cacheLen;
      var length := if cacheLen > iov.len then iov.len else cacheLen;
      ghost var all, before := Cached(), Partial();
      if !dontCopy || length < iov.len {
        CopyFromCache(length);
      } else {
        ShowInCache(length);
      }
      assert before + all[..length] + all[length..] == before + all;
    }

    /** Read into the current entry and, behind it, into the empty cache. */
    method FromSocket(s: Socket) returns (cnt: int)
      requires Valid() && cacheLen == 0
      modifies this, s
      ensures delivered == old(delivered) && partial == old(partial) && handed == old(handed) && iovIdx == old(iovIdx)
      ensures iovIdx == 0 ==> segment == old(segment)
      ensures cnt < 0 ==> Valid() && Partial() == old(Partial()) && cacheLen == 0 && s.wire == old(s.wire)
      ensures cnt >= 0 ==> Loaded(cnt) && Front(cnt) + Left(cnt) + s.wire == old(Partial() + s.wire)
      ensures |s.wire| <= |old(s.wire)| && (s.eager && |old(s.wire)| <= cacheSize ==> s.wire == [])
      ensures if cnt < 0 then s.dry else |s.wire| < |old(s.wire)|
    {
      hide Size, Kind, Extent, Loaded, Front, Left, Partial;
      var bytes;
      ghost var before := Partial();
      cnt, bytes := s.Readv(iov.len + cacheSize - cacheLen);
      if cnt < 0 { return; }
      Spread(bytes);
      Assoc(before, bytes, s.wire);
    }

    /** Bytes read fill the current entry first; the others start the cache. */
    method Spread(bytes: seq<Byte>)
      requires Valid() && cacheLen == 0 && 0 < |bytes| <= iov.len + cacheSize
      modifies this`header, this`data, this`cache
      ensures Loaded(|bytes|) && Front(|bytes|) + Left(|bytes|) == old(Partial()) + bytes
    {
      hide Size, Kind, Extent;
      ghost var before := Partial();
      var cnt := |bytes|;
      var n := if cnt < iov.len then cnt else iov.len;
      Store(bytes[..n]);
      cache := bytes[n..] + cache[cnt - n..];
      assert Front(cnt) == before + bytes[..n];
      assert Left(cnt) == bytes[n..];
      Assoc(before, bytes[..n], bytes[n..]);
      assert bytes[..n] + bytes[n..] == bytes;
    }

    /** Advance the entry over cnt bytes; what is left over is the new cache length. */
    method Advance(cnt: nat)
      requires Loaded(cnt)
      modifies this`iov, this`iovCnt, this`iovIdx, this`cacheLen
      ensures iovCnt <= 1 && (iovCnt == 1 ==> iovIdx == old(iovIdx))
      ensures iovCnt == 1 ==> Valid() && Partial() == old(Front(cnt)) && Cached() == old(Left(cnt)) == []
      ensures iovCnt == 0 ==> Filled() && Memory() && iovIdx == old(iovIdx) + 1
      ensures iovCnt == 0 ==> Gathered() == old(Front(cnt)) && Cached() == old(Left(cnt))
    {
      var left := cnt;
      if left < iov.len {
        iov := iov.(base := iov.base + left, len := iov.len - left);
        left := 0;
      } else {
        left := left - iov.len;
        iovIdx, iovCnt := iovIdx + 1, iovCnt - 1;
      }
      cacheLen := left;
    }

    /** One round of the receive loop: bytes come from the cache if it holds any, else from the socket, whose
        surplus goes to the cache; then the entry advances.  No byte is lost or repeated. */
    method Take(dontCopy: bool, s: Socket) returns (ok: bool)
      requires Valid() && (dontCopy ==> iovIdx == 1 && iov.base == 0)
      modifies this, s
      ensures delivered == old(delivered) && partial == old(partial) && handed == old(handed)
      ensures old(iovIdx) == 0 ==> segment == old(segment)
      ensures s.eager && |old(s.wire)| <= cacheSize ==> s.wire == [] || (s.wire == old(s.wire) && old(cacheLen) != 0)
      ensures old(cacheLen) == 0 ==> |s.wire| < |old(s.wire)| || (s.dry && iovCnt == 1)
      ensures |s.wire| <= |old(s.wire)| && iovCnt <= 1 && (iovCnt == 1 ==> iovIdx == old(iovIdx))
      ensures iovCnt == 1 ==> Valid() && Cached() == [] && Partial() + s.wire == old(Partial() + Cached() + s.wire)
      ensures iovCnt == 0 ==> ok && Filled() && Memory() && iovIdx == old(iovIdx) + 1
      ensures iovCnt == 0 ==> Gathered() + Cached() + s.wire == old(Partial() + Cached() + s.wire)
    {
      hide Size, Kind, Loaded, Front, Left, Gathered, Partial, Filled;
      ok := true;
      if cacheLen != 0 {
        var cnt := FromCache(dontCopy);
        Advance(cnt);
      } else {
        assert Partial() + Cached() == Partial();
        var cnt := FromSocket(s);
        if cnt < 0 { return false; }
        Advance(cnt);
      }
    }
  
    /** `mca_btl_tcp2_frag_recv`.  When it reports an incomplete fragment, the cache is empty.  When it reports a
        complete one, the header is that of the next record; an empty payload leaves the segment as the fragment last
        had it, so the record is right exactly when it has a payload or the fragment had none before. */
    method FragRecv(s: Socket, ghost todo: seq<Record>, ghost later: seq<Byte>) returns (done: bool)
      requires Valid() && AllFit(todo, room) && Partial() + Cached() + s.wire + later == Encode(todo)
      modifies this, s
      ensures delivered == old(delivered) && partial == old(partial) && handed == old(handed)
      ensures !done ==> Valid() && Cached() == [] && Partial() + s.wire + later == Encode(todo)
      ensures done ==> Memory() && todo != [] && Cached() + s.wire + later == Encode(todo[1..])
      ensures done ==> header == todo[0].header && segment.len == Shown(todo[0], old(segment).len)
      ensures done ==> (Contents(segment) == todo[0].payload <==> todo[0].payload != [] || old(segment).len == 0)
      ensures done && old(iovIdx) == 1 ==> todo[0].payload != []
      ensures !done && iovIdx != 1 ==> old(iovIdx) != 1 && segment == old(segment)
      ensures |s.wire| <= |old(s.wire)| && Drained(s, old(s.wire), old(cacheLen))
      ensures done && old(cacheLen) == 0 ==> |s.wire| < |old(s.wire)|
    {
      hide Valid, Filled, Memory, Partial, Gathered, Encode, AllFit, Size, Contents, Cached, Extent, Shown;
      var dontCopy := false;
      InMemory();
      while true
        invariant delivered == old(delivered) && partial == old(partial) && handed == old(handed)
        invariant |s.wire| <= |old(s.wire)|
        invariant Valid() && Memory() && Partial() + Cached() + s.wire + later == Encode(todo)
        invariant (iovIdx == 0 || iovIdx == 1) && (dontCopy ==> iovIdx == 1 && iov.base == 0)
        invariant !dontCopy ==>
            segment == old(segment) && iovIdx == old(iovIdx) && s.wire == old(s.wire) && cacheLen == old(cacheLen)
        invariant dontCopy ==> old(iovIdx) == 0 && Drained(s, old(s.wire), old(cacheLen))
        invariant dontCopy && old(cacheLen) == 0 ==> |s.wire| < |old(s.wire)|
        decreases if dontCopy then 0 else 1
      {
        ghost var all := Partial() + Cached() + s.wire;
        ghost var idx := iovIdx;
        var ok := Take(dontCopy, s);
        if iovCnt != 0 {
          assert Partial() + s.wire + later == Encode(todo);
          return false;
        }
        Assoc(Gathered() + Cached(), s.wire, later);
        ghost var rest := s.wire + later;
        if iovIdx == 1 {
          HeaderDone(rest, todo);
        } else {
          RecordDone(rest, todo);
        }
        SegmentSize(todo[0], old(segment).len);
        if iovIdx == 1 && Kind(header) == SEND && Size(header) != 0 {
          StartPayload();
          dontCopy := true;
          Assoc(Partial() + Cached(), s.wire, later);
        } else {
          Assoc(Cached(), s.wire, later);
          return true;
        }
      }
    }

    /** With an empty cache something was read, unless the socket had nothing to give; and an eager kernel hands over
        everything at once when the cache is large enough. */
    ghost predicate Drained(s: Socket, before: seq<Byte>, cached: nat)
      reads s
    {
      && (s.eager && |before| <= cacheSize && (cached == 0 || before == []) ==> s.wire == [])
      && (cached == 0 ==> |s.wire| < |before| || s.dry)
    }

    lemma SegmentSize(r: Record, before: nat)
      requires Memory()
      ensures |Contents(segment)| == segment.len
      ensures Shown(r, before) == if r.payload != [] then |r.payload| else before
    {
    }

    lemma InMemory()
      requires Valid()
      ensures Memory() && (iovIdx == 0 || iovIdx == 1)
    {
    }

    /** With a whole header, the size it announces fits and is that of the next record. */
    lemma HeaderDone(rest: seq<Byte>, todo: seq<Record>)
      requires Filled() && iovIdx == 1 && AllFit(todo, room) && Gathered() + Cached() + rest == Encode(todo)
      ensures Memory() && |header| == HEADER && Kind(header) == SEND && Size(header) <= room
      ensures todo != [] && header == todo[0].header && Size(header) == |todo[0].payload|
      ensures Size(header) == 0 ==> Cached() + rest == Encode(todo[1..])
    {
      Assoc(header, Cached(), rest);
      HeaderFirst(header, Cached() + rest, todo, room);
      assert Fits(todo[0], room);
    }

    lemma RecordDone(rest: seq<Byte>, todo: seq<Record>)
      requires Filled() && iovIdx == 2 && AllFit(todo, room) && Gathered() + Cached() + rest == Encode(todo)
      ensures Memory() && |header| == HEADER && Contents.requires(segment)
      ensures todo != [] && todo[0] == Record(header, Contents(segment)) && todo[0].payload != []
          && Cached() + rest == Encode(todo[1..])
    {
      Assoc(header + Contents(segment), Cached(), rest);
      RecordFirst(header, Contents(segment), Cached() + rest, todo, room);
    }

    /** Set up the payload entry behind a header. */
    method StartPayload()
      requires Filled() && iovIdx == 1 && Kind(header) == SEND && 0 < Size(header) <= room
      modifies this`segment, this`iov, this`iovCnt
      ensures Valid() && Memory() && Partial() == old(Gathered()) && Cached() == old(Cached()) && iov.base == 0
    {
      segment := Span(Data, 0, Size(header));
      iov, iovCnt := Span(Data, 0, Size(header)), iovCnt + 1;
    }
  
    /** Between events: a fragment in progress or none, and nothing cached. */
    ghost predicate Resting()
      reads this
    {
      Memory() && cacheLen == 0 && (partial ==> Valid())
    }

    ghost function InFlight(): seq<Byte>
      requires Resting()
      reads this
    {
      if partial then Partial() else []
    }

    /** A fragment in progress is never a whole number of records. */
    lemma Incomplete(todo: seq<Record>)
      requires Resting() && AllFit(todo, room) && InFlight() == Encode(todo)
      ensures todo == []
    {
      if !partial {
        EncodeEmpty(todo, room);
      } else if todo != [] {
        assert Fits(todo[0], room);
        assert iovIdx == 1;
        assert header + data[..iov.base] == Encode(todo);
        HeaderFirst(header, data[..iov.base], todo, room);
        assert false;
      }
    }

    lemma NothingCached()
      requires Memory()
      ensures cacheLen == 0 <==> Cached() == []
    {
    }

    /** Keep the incomplete fragment for the next event. */
    method Park()
      requires Valid() && Memory() && Cached() == []
      modifies this`partial
      ensures Resting() && partial && InFlight() == old(Partial())
    {
      partial := true;
    }

    /** The receive callback. */
    method Deliver()
      requires Memory()
      modifies this`partial, this`delivered
      ensures Memory() && !partial && Cached() == old(Cached())
      ensures delivered == old(delivered) + [Record(old(header), old(Contents(segment)))]
    {
      partial, delivered := false, delivered + [Record(header, Contents(segment))];
    }

    /** The records delivered are right exactly when they should be, and the fragment in progress still has the segment
        it came with until a payload replaces it. */
    ghost predicate Logged(all: seq<Record>)
      reads this
    {
      && |handed| == |delivered| + (if partial then 1 else 0) && |delivered| <= |all| && History(delivered, all, handed)
      && (partial && iovIdx != 1 ==> segment.len == Came(all, handed, |delivered|))
    }

    /** The CONNECTED branch of the receive handler: deliver complete fragments until the cache is used up.  Without a
        fragment in progress the free list hands out any, or none; while the cache holds bytes the fragment is used
        again.  A record arrives as it was sent exactly when it has a payload or its fragment came with an empty
        segment. */
    method RecvHandler(s: Socket, f: Option<Fragment>, ghost all: seq<Record>, ghost later: seq<Byte>)
      requires Resting() && Logged(all) && (f.Some? ==> FragmentOk(f.value)) && AllFit(all[|delivered|..], room)
      requires InFlight() + s.wire + later == Encode(all[|delivered|..])
      modifies this, s
      ensures Resting() && Logged(all) && InFlight() + s.wire + later == Encode(all[|delivered|..])
      ensures |old(delivered)| <= |delivered| && delivered[..|old(delivered)|] == old(delivered)
      ensures HandedOn(old(handed), old(partial), f, handed)
      ensures partial ==> InFlight() != [] || |delivered| == |old(delivered)|
      ensures old(partial) || f.Some? ==> Drained(s, old(s.wire), 0)
      ensures !old(partial) && f.None? ==> delivered == old(delivered) && !partial && s.wire == old(s.wire)
    {
      hide Valid, Partial, Encode, AllFit, Size, Contents, Extent, Cached, History, Came, Shown;
      NothingCached();
      HandedNothing(handed, partial, f);
      if !partial {
        if f.None? { return; }
        CameHanded(all, handed, f.value.segment.len);
        HistoryHanded(delivered, all, handed, Some(f.value.segment.len));
        HandedFirst(handed, f);
        Allocate(f.value);
      }
      InMemory();
      assert Partial() + Cached() + s.wire + later == Encode(all[|delivered|..]);
      Loop(s, f, all, later, old(handed), old(partial));
    }

    /** The loop of the handler, with a fragment in progress. */
    method Loop(s: Socket, ghost f: Option<Fragment>, ghost all: seq<Record>, ghost later: seq<Byte>,
                ghost was: seq<Option<nat>>, ghost had: bool)
      requires Valid() && Memory() && Ready(all) && cacheLen == 0 && HandedOn(was, had, f, handed)
          && (had || |handed| > |was|)
      requires AllFit(all[|delivered|..], room)
      requires Partial() + Cached() + s.wire + later == Encode(all[|delivered|..])
      modifies this, s
      ensures Resting() && Logged(all) && InFlight() + s.wire + later == Encode(all[|delivered|..])
      ensures |old(delivered)| <= |delivered| && delivered[..|old(delivered)|] == old(delivered)
      ensures HandedOn(was, had, f, handed) && Drained(s, old(s.wire), 0)
      ensures partial ==> InFlight() != [] || |delivered| == |old(delivered)|
    {
      hide Valid, Partial, Encode, AllFit, Size, Contents, Extent, Cached, History, Came, Shown, HandedOn;
      ghost var first := |delivered|;
      assert delivered[..first] == delivered;
      while true
        invariant Valid() && Memory() && Ready(all) && HandedOn(was, had, f, handed) && AllFit(all[|delivered|..], room)
        invariant Partial() + Cached() + s.wire + later == Encode(all[|delivered|..])
        invariant first <= |delivered| && delivered[..first] == old(delivered) && (had || |handed| > |was|)
        invariant if |delivered| == first then s.wire == old(s.wire) && cacheLen == 0
                  else Drained(s, old(s.wire), 0) && cacheLen != 0 && |s.wire| < |old(s.wire)|
        decreases |all| - |delivered|
      {
        var done := NextRecord(s, all, later);
        if !done {
          Park();
          break;
        }
        NothingCached();
        if cacheLen != 0 {
          CameReused(all, handed);
          HistoryHanded(delivered, all, handed, None);
          HandedMore(was, had, f, handed);
          Reuse();
        } else {
          break;
        }
      }
    }

    /** One turn of the loop: the next record is delivered when it is complete. */
    method NextRecord(s: Socket, ghost all: seq<Record>, ghost later: seq<Byte>) returns (done: bool)
      requires Valid() && Memory() && Ready(all) && AllFit(all[|delivered|..], room)
      requires Partial() + Cached() + s.wire + later == Encode(all[|delivered|..])
      modifies this, s
      ensures handed == old(handed) && Drained(s, old(s.wire), old(cacheLen)) && |s.wire| <= |old(s.wire)|
      ensures done && old(cacheLen) == 0 ==> |s.wire| < |old(s.wire)|
      ensures !done ==> Valid() && Memory() && Cached() == [] && Ready(all) && delivered == old(delivered)
      ensures !done ==> Partial() + s.wire + later == Encode(all[|delivered|..])
      ensures !done && old(cacheLen) != 0 ==> Partial() != []
      ensures done ==> Memory() && !partial && |delivered| == |handed| <= |all| && History(delivered, all, handed)
      ensures done ==> |delivered| == |old(delivered)| + 1 && delivered[..|old(delivered)|] == old(delivered)
      ensures done ==> segment.len == Shown(all[|delivered| - 1], Came(all, handed, |delivered| - 1))
      ensures done ==> AllFit(all[|delivered|..], room) && Cached() + s.wire + later == Encode(all[|delivered|..])
    {
      hide Valid, Partial, Encode, AllFit, Size, Contents, Extent, Cached, History, Came, Shown;
      ghost var d, came, bytes, before, held := |delivered|, segment.len, Cached(), s.wire, Partial();
      NothingCached();
      done := FragRecv(s, all[d..], later);
      if !done {
        assert |Partial()| + |s.wire| == |held| + |bytes| + |before|;
        InMemory();
        return;
      }
      TailFits(all, d, room);
      SegmentSize(all[d], came);
      SegmentSize(all[d], Came(all, handed, d));
      HistoryMore(delivered, Record(header, Contents(segment)), all, handed);
      Deliver();
    }

    /** A fragment in progress and what is known about its segment. */
    ghost predicate Ready(all: seq<Record>)
      reads this
    {
      && |handed| == |delivered| + 1 && |delivered| <= |all| && History(delivered, all, handed)
      && (iovIdx != 1 ==> segment.len == Came(all, handed, |delivered|))
    }
  }

  /** The length of the segment after a record: that of its payload, or what it was. */
  function Shown(r: Record, before: nat): nat
  {
    if r.payload != [] then |r.payload| else before
  }

  /** The length of the segment that the fragment of record i came with: what the free list left in it, or what the
      record before left in it. */
  ghost function Came(rs: seq<Record>, handed: seq<Option<nat>>, i: nat): nat
    requires i < |handed| && i <= |rs|
  {
    match handed[i]
    case Some(len) => len
    case None => if i == 0 then 0 else Shown(rs[i - 1], Came(rs, handed, i - 1))
  }

  /** Record i arrives as it was sent: it has a payload, or its fragment came with an empty segment. */
  ghost predicate Intact(rs: seq<Record>, handed: seq<Option<nat>>, i: nat)
    requires i < |handed| && i < |rs|
  {
    rs[i].payload != [] || Came(rs, handed, i) == 0
  }

  /** What the callback is given for record i: the right header, the right payload when there is one, and the right
      record exactly when it can be intact. */
  ghost predicate ReceivedAt(delivered: seq<Record>, rs: seq<Record>, handed: seq<Option<nat>>, i: nat)
    requires i < |delivered| && i < |rs| && i < |handed|
  {
    && delivered[i].header == rs[i].header && (rs[i].payload != [] ==> delivered[i].payload == rs[i].payload)
    && (delivered[i] == rs[i] <==> Intact(rs, handed, i))
  }

  ghost predicate History(delivered: seq<Record>, rs: seq<Record>, handed: seq<Option<nat>>)
  {
    && |delivered| <= |rs| && |delivered| <= |handed| && (handed != [] ==> handed[0].Some?)
    && forall i: nat | i < |delivered| :: ReceivedAt(delivered, rs, handed, i)
  }

  lemma {:induction false} CameKept(rs: seq<Record>, handed: seq<Option<nat>>, x: Option<nat>, i: nat)
    requires i < |handed| && i <= |rs|
    ensures Came(rs, handed + [x], i) == Came(rs, handed, i)
  {
    if i > 0 { CameKept(rs, handed, x, i - 1); }
  }

  lemma {:induction false} CameGrown(rs: seq<Record>, r: Record, handed: seq<Option<nat>>, i: nat)
    requires i < |handed| && i <= |rs|
    ensures Came(rs + [r], handed, i) == Came(rs, handed, i)
  {
    if i > 0 { CameGrown(rs, r, handed, i - 1); }
  }

  lemma CameHanded(rs: seq<Record>, handed: seq<Option<nat>>, len: nat)
    requires |handed| <= |rs|
    ensures Came(rs, handed + [Some(len)], |handed|) == len
  {
  }

  lemma CameReused(rs: seq<Record>, handed: seq<Option<nat>>)
    requires 0 < |handed| <= |rs|
    ensures Came(rs, handed + [None], |handed|) == Shown(rs[|handed| - 1], Came(rs, handed, |handed| - 1))
  {
    CameKept(rs, handed, None, |handed| - 1);
  }

  lemma HistoryHanded(delivered: seq<Record>, rs: seq<Record>, handed: seq<Option<nat>>, x: Option<nat>)
    requires History(delivered, rs, handed) && (handed == [] ==> x.Some?)
    ensures History(delivered, rs, handed + [x])
  {
    var more := handed + [x];
    forall i: nat | i < |delivered| ensures ReceivedAt(delivered, rs, more, i) {
      assert ReceivedAt(delivered, rs, handed, i);
      CameKept(rs, handed, x, i);
    }
  }

  lemma HistoryGrown(delivered: seq<Record>, rs: seq<Record>, r: Record, handed: seq<Option<nat>>)
    requires History(delivered, rs, handed)
    ensures History(delivered, rs + [r], handed)
  {
    var more := rs + [r];
    forall i: nat | i < |delivered| ensures ReceivedAt(delivered, more, handed, i) {
      assert ReceivedAt(delivered, rs, handed, i);
      CameGrown(rs, r, handed, i);
    }
  }

  lemma HistoryMore(delivered: seq<Record>, got: Record, rs: seq<Record>, handed: seq<Option<nat>>)
    requires History(delivered, rs, handed) && |delivered| < |rs| && |delivered| < |handed|
    requires got.header == rs[|delivered|].header
    requires got.payload == rs[|delivered|].payload <==> Intact(rs, handed, |delivered|)
    ensures History(delivered + [got], rs, handed)
  {
    hide Came;
    var more := delivered + [got];
    forall i: nat | i < |more| ensures ReceivedAt(more, rs, handed, i) {
      if i < |delivered| { assert ReceivedAt(delivered, rs, handed, i); }
    }
  }

  /** What one call of the handler adds to the log: first the fragment of the free list, if there was none in progress,
      and then that fragment again and again. */
  ghost predicate HandedOn(was: seq<Option<nat>>, had: bool, f: Option<Fragment>, now: seq<Option<nat>>)
  {
    && |was| <= |now| && now[..|was|] == was
    && forall j | |was| <= j < |now| ::
       now[j] == if j == |was| && !had && f.Some? then Some(f.value.segment.len) else None
  }

  lemma HandedNothing(was: seq<Option<nat>>, had: bool, f: Option<Fragment>)
    ensures HandedOn(was, had, f, was)
  {
    assert was[..|was|] == was;
  }

  lemma HandedFirst(was: seq<Option<nat>>, f: Option<Fragment>)
    requires f.Some?
    ensures HandedOn(was, false, f, was + [Some(f.value.segment.len)])
  {
  }

  lemma HandedMore(was: seq<Option<nat>>, had: bool, f: Option<Fragment>, now: seq<Option<nat>>)
    requires HandedOn(was, had, f, now) && (had || |now| > |was|)
    ensures HandedOn(was, had, f, now + [None])
  {
    assert (now + [None])[..|was|] == now[..|was|];
  }

  // ---------- One direction of a connection ----------

  lemma {:induction false} JoinSegments(header: seq<Byte>, segments: seq<seq<Byte>>, i: nat)
    requires i <= |segments|
    ensures Join([header] + segments, i + 1) == Join(segments, i)
    decreases |segments| - i
  {
    var iov := [header] + segments;
    if i < |segments| {
      assert iov[i + 1] == segments[i];
      JoinSegments(header, segments, i + 1);
    }
  }

  /** Sender, socket and receiver together, with the records submitted so far. */
  class Channel {
    const sender: Sender
    const socket: Socket
    const receiver: Receiver
    ghost var sent: seq<Record>

    /** What was delivered are the first records sent, each intact exactly when its fragment lets it be, and every byte
        of the others is exactly once on its way: in the fragment being received, on the wire, or waiting at the
        sender. */
    ghost predicate Valid()
      reads this, sender, socket, receiver
    {
      && sender.Valid() && receiver.Resting() && AllFit(sent, receiver.room)
      && (!sender.connected ==> socket.wire == [] && !receiver.partial)
      && |receiver.delivered| <= |sent| && receiver.Logged(sent)
      && receiver.InFlight() + socket.wire + sender.Pending() == Encode(sent[|receiver.delivered|..])
    }

    constructor (room: nat, cacheSize: nat, eager: bool)
      ensures Valid() && sent == [] && !sender.connected && socket.eager == eager
      ensures receiver.delivered == [] && receiver.handed == [] && !receiver.partial
      ensures receiver.room == room && receiver.cacheSize == cacheSize && socket.wire == [] && sender.Pending() == []
      ensures fresh(sender) && fresh(socket) && fresh(receiver)
    {
      sender := new Sender();
      socket := new Socket(eager);
      receiver := new Receiver(room, cacheSize);
      sent := [];
    }

    /** Queue a record whose payload lies in the given segments. */
    method Submit(r: Record, segments: seq<seq<Byte>>, priority: bool)
      requires Valid() && Fits(r, receiver.room) && Join(segments, 0) == r.payload
      modifies this, sender, socket
      ensures Valid() && sent == old(sent) + [r] && receiver.delivered == old(receiver.delivered)
      ensures sender.connected == old(sender.connected) && receiver.partial == old(receiver.partial)
    {
      hide AllFit, Encode, History, Came, Remaining, Join;
      var f := Frag([r.header] + segments, 0, 1 + |segments|);
      FragBytes(r, segments);
      ghost var d := |receiver.delivered|;
      ghost var flight, wire, pending, all := receiver.InFlight(), socket.wire, sender.Pending(), sent[d..];
      sender.Send(f, priority, socket);
      HistoryGrown(receiver.delivered, sent, r, receiver.handed);
      if receiver.partial { CameGrown(sent, r, receiver.handed, d); }
      sent := sent + [r];
      assert sent[d..] == all + [r];
      EncodeAppend(all, r);
      FitAppend(old(sent), r, receiver.room);
      assert flight + socket.wire + sender.Pending() == flight + wire + pending + (r.header + r.payload) by {
        Assoc(flight, socket.wire, sender.Pending());
        Assoc(flight, wire, pending);
        Assoc(flight, wire + pending, r.header + r.payload);
      }
    }

    method Connect()
      requires Valid() && !sender.connected
      modifies sender
      ensures Valid() && sender.connected && receiver.delivered == old(receiver.delivered)
    {
      hide AllFit, Encode, History, Came, Remaining, Join;
      sender.Connected();
    }

    /** Connected over an eager kernel, with the given records submitted and nothing received yet. */
    ghost predicate Primed(rs: seq<Record>)
      reads this, sender, socket, receiver
    {
      && Valid() && sent == rs && sender.connected && socket.eager
      && receiver.delivered == [] && receiver.handed == [] && !receiver.partial
    }

    method Prime()
      requires Valid() && sent == [] && !sender.connected && socket.eager
      requires receiver.delivered == [] && receiver.handed == [] && !receiver.partial
      modifies sender
      ensures Primed([])
    {
      Connect();
    }

    /** Queue a record whose payload lies in one segment. */
    method SubmitWhole(r: Record, ghost rs: seq<Record>)
      requires Primed(rs) && Fits(r, receiver.room)
      modifies this, sender, socket
      ensures Primed(rs + [r])
    {
      hide AllFit, Fits, Encode, History, Came, Remaining, Join;
      OneSegment(r.payload);
      Submit(r, [r.payload], false);
    }

    /** The socket can take bytes. */
    method SendEvent()
      requires Valid() && sender.connected
      modifies sender, socket
      ensures Valid() && sender.connected && receiver.delivered == old(receiver.delivered)
      ensures sender.Pending() == [] || (socket.full && !socket.eager)
      ensures socket.wire + sender.Pending() == old(socket.wire + sender.Pending())
    {
      hide AllFit, Encode, History, Came, Remaining, Join;
      ghost var flight, wire, pending := receiver.InFlight(), socket.wire, sender.Pending();
      sender.SendHandler(socket);
      Assoc(flight, socket.wire, sender.Pending());
      Assoc(flight, wire, pending);
    }

    /** The socket has bytes to read, or not; the free list would hand out f. */
    method RecvEvent(f: Option<Fragment>)
      requires Valid() && sender.connected && (f.Some? ==> receiver.FragmentOk(f.value))
      modifies socket, receiver
      ensures Valid() && |receiver.delivered| >= |old(receiver.delivered)|
      ensures receiver.delivered[..|old(receiver.delivered)|] == old(receiver.delivered)
      ensures HandedOn(old(receiver.handed), old(receiver.partial), f, receiver.handed)
      ensures receiver.partial ==> receiver.InFlight() != [] || |receiver.delivered| == |old(receiver.delivered)|
      ensures f.Some? ==> receiver.Drained(socket, old(socket.wire), 0)
    {
      hide AllFit, Encode, History, Came, Remaining, Join, HandedOn;
      FitTail(sent, |receiver.delivered|, receiver.room);
      receiver.RecvHandler(socket, f, sent, sender.Pending());
    }

    /** Over a kernel that takes and gives all it can, one write event and one read event deliver everything that fits
        the cache. */
    method Flush(f: Fragment)
      requires Valid() && sender.connected && socket.eager && |socket.wire + sender.Pending()| <= receiver.cacheSize
      requires receiver.FragmentOk(f)
      modifies sender, socket, receiver
      ensures Valid() && sender.connected && sender.Pending() == [] && socket.wire == []
      ensures |receiver.delivered| == |sent| && (|old(receiver.delivered)| < |sent| ==> !receiver.partial)
      ensures receiver.delivered[..|old(receiver.delivered)|] == old(receiver.delivered)
      ensures HandedOn(old(receiver.handed), old(receiver.partial), Some(f), receiver.handed)
      ensures receiver.delivered == sent <==> AllIntact(sent, receiver.handed, |sent|)
    {
      hide AllFit, Encode, History, Came, Remaining, Join, HandedOn, AllIntact;
      SendEvent();
      assert socket.wire + sender.Pending() == socket.wire;
      RecvEvent(Some(f));
      AllDelivered();
    }

    /** At every moment what was delivered is what was sent exactly when all of it can be intact; and whatever the free
        list hands out, when no record is empty. */
    lemma Exact()
      requires Valid()
      ensures receiver.delivered == sent[..|receiver.delivered|]
          <==> AllIntact(sent, receiver.handed, |receiver.delivered|)
      ensures NoneEmpty(sent) ==> receiver.delivered == sent[..|receiver.delivered|]
    {
      var d := |receiver.delivered|;
      forall i: nat | i < d ensures receiver.delivered[i] == sent[i] <==> Intact(sent, receiver.handed, i) {
        assert ReceivedAt(receiver.delivered, sent, receiver.handed, i);
      }
      if receiver.delivered == sent[..d] {
        forall i: nat | i < d ensures Intact(sent, receiver.handed, i) { assert sent[..d][i] == sent[i]; }
      }
    }

    lemma At(i: nat)
      requires Valid() && i < |receiver.delivered|
      ensures i < |sent| && i < |receiver.handed|
      ensures receiver.delivered[i] == sent[i] <==> Intact(sent, receiver.handed, i)
    {
      assert ReceivedAt(receiver.delivered, sent, receiver.handed, i);
    }

    lemma Waiting()
      requires Valid()
      ensures |socket.wire + sender.Pending()| <= |Encode(sent[|receiver.delivered|..])|
    {
    }

    /** Once every byte has been written and read, every record has been delivered, and as it was sent exactly when all
        records can be intact, which they are, whatever the free list handed out, when none is empty. */
    lemma AllDelivered()
      requires Valid() && sender.Pending() == [] && socket.wire == []
      ensures |receiver.delivered| == |sent| && receiver.InFlight() == []
      ensures receiver.delivered == sent <==> AllIntact(sent, receiver.handed, |sent|)
      ensures NoneEmpty(sent) ==> receiver.delivered == sent
    {
      assert sent[..|sent|] == sent;
      Exact();
      var todo := sent[|receiver.delivered|..];
      FitTail(sent, |receiver.delivered|, receiver.room);
      assert receiver.InFlight() == Encode(todo);
      receiver.Incomplete(todo);
    }
  }

  ghost predicate AllIntact(rs: seq<Record>, handed: seq<Option<nat>>, n: nat)
  {
    n <= |rs| && n <= |handed| && forall i: nat | i < n :: Intact(rs, handed, i)
  }

  ghost predicate NoneEmpty(rs: seq<Record>)
  {
    forall i | 0 <= i < |rs| :: rs[i].payload != []
  }

  /** A log of what the free list handed out for n records; the first fragment always comes from it. */
  ghost predicate Log(handed: seq<Option<nat>>, n: nat)
  {
    |handed| == n && (n > 0 ==> handed[0].Some?)
  }

  /** Every record is intact whatever the free list hands out if and only if no record is empty. */
  lemma ExactWhatever(rs: seq<Record>)
    ensures (forall handed | Log(handed, |rs|) :: AllIntact(rs, handed, |rs|)) <==> NoneEmpty(rs)
  {
    if !NoneEmpty(rs) {
      var i :| 0 <= i < |rs| && rs[i].payload == [];
      var handed: seq<Option<nat>> := seq(|rs|, _ => Some(1));
      assert Log(handed, |rs|) && !Intact(rs, handed, i);
    }
  }

  /** A fragment that came with a segment that is not empty shows one with every empty record, as long as it is used. */
  lemma {:induction false} StaleOn(rs: seq<Record>, handed: seq<Option<nat>>, i: nat)
    requires i < |handed| && i <= |rs| && handed[0].Some? && handed[0].value > 0
    requires forall j | 0 < j < |handed| :: handed[j].None?
    ensures Came(rs, handed, i) > 0
  {
    if i > 0 { StaleOn(rs, handed, i - 1); }
  }

  /** A fragment as a send of one byte leaves it, and one that was never used. */
  function StaleFragment(room: nat): Fragment
  {
    Fragment(seq(HEADER, _ => 0), seq(room, _ => 0), Span(Foreign([9]), 0, 1))
  }

  function CleanFragment(room: nat): Fragment
  {
    Fragment(seq(HEADER, _ => 0), seq(room, _ => 0), Span(Data, 0, 0))
  }

  /** For any records there is a run that delivers them all and gets them right exactly when none is empty: the one in
      which the free list hands out a fragment that was used to send. */
  method Spoiled(rs: seq<Record>, room: nat) returns (c: Channel)
    requires AllFit(rs, room)
    ensures fresh(c) && c.Valid() && c.sent == rs && |c.receiver.delivered| == |rs|
    ensures c.receiver.delivered == rs <==> NoneEmpty(rs)
  {
    hide AllFit, Encode, History, Came, Remaining, Join, HandedOn, AllIntact, NoneEmpty;
    c := SubmitAll(rs, room);
    c.Waiting();
    assert rs[0..] == rs;
    var f := StaleFragment(room);
    c.Flush(f);
    StaleLog(rs, c.receiver.handed, f);
  }

  lemma StaleLog(rs: seq<Record>, handed: seq<Option<nat>>, f: Fragment)
    requires HandedOn([], false, Some(f), handed) && |rs| <= |handed| && f.segment.len > 0
    ensures AllIntact(rs, handed, |rs|) <==> NoneEmpty(rs)
  {
    forall i: nat | i < |rs| ensures Intact(rs, handed, i) <==> rs[i].payload != [] { StaleOn(rs, handed, i); }
  }

  /** A connected channel over an eager kernel with all the records waiting and a cache for all of them. */
  method SubmitAll(rs: seq<Record>, room: nat) returns (c: Channel)
    requires AllFit(rs, room)
    ensures fresh(c) && fresh(c.sender) && fresh(c.socket) && fresh(c.receiver) && c.Primed(rs)
    ensures c.receiver.room == room && c.receiver.cacheSize == |Encode(rs)|
  {
    hide AllFit, Fits, Encode, Channel.Primed;
    c := new Channel(room, |Encode(rs)|, true);
    c.Prime();
    for i := 0 to |rs|
      invariant fresh(c) && fresh(c.sender) && fresh(c.socket) && fresh(c.receiver) && c.Primed(rs[..i])
      invariant c.receiver.room == room && c.receiver.cacheSize == |Encode(rs)|
    {
      FitsAt(rs, room, i);
      c.SubmitWhole(rs[i], rs[..i]);
      assert rs[..i + 1] == rs[..i] + [rs[i]];
    }
    assert rs[..|rs|] == rs;
  }

  lemma FitsAt(rs: seq<Record>, room: nat, i: nat)
    requires AllFit(rs, room) && i < |rs|
    ensures Fits(rs[i], room)
  {
  }

  lemma OneSegment(payload: seq<Byte>)
    ensures Join([payload], 0) == payload
  {
    assert Join([payload], 1) == [];
  }

  /** The failing run: an empty record is the first, and its fragment was used to send before. */
  method EmptyOnStale() returns (c: Channel)
    ensures fresh(c) && c.Valid() && |c.sent| == 1 && c.sent[0].payload == []
    ensures |c.receiver.delivered| == 1 && c.receiver.delivered[0] != c.sent[0]
  {
    hide AllFit, Encode, History, Came, Remaining, Join;
    var full, empty := FullRecord(), EmptyRecord();
    TwoRecords(full, empty);
    c := Spoiled([empty], 1);
  }

  /** The failing run on one fragment: a record with one byte, then an empty one.  Both are delivered, but the second
      shows the byte of the first. */
  method EmptyAfterFull() returns (c: Channel)
    ensures fresh(c) && c.Valid() && |c.sent| == 2 && c.sent[0].payload == [7] && c.sent[1].payload == []
    ensures |c.receiver.delivered| == 2 && c.receiver.delivered[0] == c.sent[0] && c.receiver.delivered[1] != c.sent[1]
  {
    hide AllFit, Encode, History, Came, Remaining, Join, HandedOn, AllIntact;
    var full, empty := FullRecord(), EmptyRecord();
    TwoRecords(full, empty);
    c := SubmitAll([full, empty], 1);
    c.Waiting();
    assert [full, empty][0..] == [full, empty];
    var f := CleanFragment(1);
    c.Flush(f);
    ReusedLog(full, empty, c.receiver.handed, f);
    c.At(0);
    c.At(1);
  }

  lemma ReusedLog(a: Record, b: Record, handed: seq<Option<nat>>, f: Fragment)
    requires HandedOn([], false, Some(f), handed) && |handed| >= 2 && a.payload != [] && b.payload == []
    ensures Intact([a, b], handed, 0) && !Intact([a, b], handed, 1)
  {
    assert handed[1] == None;
  }

  /** The same records over two fragments that were never used: both are right. */
  method EmptyArrives() returns (c: Channel)
    ensures fresh(c) && c.Valid() && |c.sent| == 2 && c.sent[0].payload == [7] && c.sent[1].payload == []
    ensures c.receiver.delivered == c.sent
  {
    hide AllFit, Fits, Encode, History, Came, Remaining, Join, AllIntact, HandedOn;
    c := FullArrives();
    var empty := EmptyRecord();
    TwoRecords(FullRecord(), empty);
    OneSegment(empty.payload);
    c.Submit(empty, [empty.payload], false);
    c.Waiting();
    assert c.sent[1..] == [empty];
    var f := CleanFragment(1);
    ghost var was := c.receiver.handed;
    c.Flush(f);
    HandedOne(was, f, c.receiver.handed);
    CleanLog(c.sent, c.receiver.handed, f);
  }

  method FullArrives() returns (c: Channel)
    ensures fresh(c) && fresh(c.sender) && fresh(c.socket) && fresh(c.receiver) && c.Valid() && c.sent == [FullRecord()]
    ensures c.sender.connected && c.socket.eager && c.socket.wire == [] && c.sender.Pending() == []
    ensures c.receiver.room == 1 && c.receiver.cacheSize == |Encode([FullRecord()])| && !c.receiver.partial
    ensures |c.receiver.delivered| == 1 && c.receiver.handed == [Some(0)]
  {
    hide AllFit, Fits, Encode, History, Came, Remaining, Join, AllIntact, HandedOn;
    var full := FullRecord();
    TwoRecords(full, EmptyRecord());
    c := SubmitAll([full], 1);
    c.Waiting();
    assert [full][0..] == [full];
    var f := CleanFragment(1);
    c.Flush(f);
    HandedOne([], f, c.receiver.handed);
  }

  lemma HandedOne(was: seq<Option<nat>>, f: Fragment, now: seq<Option<nat>>)
    requires HandedOn(was, false, Some(f), now) && |now| == |was| + 1
    ensures now == was + [Some(f.segment.len)]
  {
  }

  function FullRecord(): Record
  {
    Record([0, 1, 0, 0, 1, 0, 0, 0], [7])
  }

  function EmptyRecord(): Record
  {
    Record([0, 1, 0, 0, 0, 0, 0, 0], [])
  }

  lemma TwoRecords(a: Record, b: Record)
    requires a == FullRecord() && b == EmptyRecord()
    ensures Fits(a, 1) && Fits(b, 1) && AllFit([a], 1) && AllFit([b], 1) && AllFit([a, b], 1)
    ensures |Encode([b])| <= |Encode([a])|
  {
    assert [a][1..] == [] && [b][1..] == [];
    assert Encode([a]) == a.header + a.payload + [] && Encode([b]) == b.header + b.payload + [];
  }

  /** Records of which each gets a fragment of its own that was never used are all intact. */
  lemma CleanLog(rs: seq<Record>, handed: seq<Option<nat>>, f: Fragment)
    requires f.segment.len == 0 && |rs| <= |handed| && forall i | 0 <= i < |rs| :: handed[i] == Some(f.segment.len)
    ensures AllIntact(rs, handed, |rs|)
  {
  }

  lemma FitTail(rs: seq<Record>, d: nat, room: nat)
    requires AllFit(rs, room) && d <= |rs|
    ensures AllFit(rs[d..], room)
  {
  }

  lemma FitAppend(rs: seq<Record>, r: Record, room: nat)
    requires AllFit(rs, room) && Fits(r, room)
    ensures AllFit(rs + [r], room)
  {
  }

  lemma FragBytes(r: Record, segments: seq<seq<Byte>>)
    requires Join(segments, 0) == r.payload && |r.header| == HEADER
    ensures FragOk(Frag([r.header] + segments, 0, 1 + |segments|))
    ensures Remaining(Frag([r.header] + segments, 0, 1 + |segments|)) == r.header + r.payload
  {
    JoinSegments(r.header, segments, 0);
  }
}
