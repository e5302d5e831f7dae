/** `ld_context` as the library keeps it: fields updated in place, a receive buffer grown with
    `realloc`, a bounded transmit ring. Every method is proved to do to the value of the context what
    the state machine of module Session says. */
module Context {
  import opened Prelude
  import opened Json
  import opened Envelope
  import opened Dispatch
  import opened Session

  /** `strncpy(dst + at, src, |src|)`: copy up to the first NUL, then pad with NULs. */
  method CopyText(dst: array<byte>, at: nat, src: Bytes)
    requires at + |src| <= dst.Length
    modifies dst
    ensures dst[at..at + |src|] == StrNCpy(src)
    ensures dst[..at] == old(dst[..at])
  {
    var i := 0;
    while i < |src| && src[i] != 0
      invariant i <= |src|
      invariant forall j :: 0 <= j < i ==> src[j] != 0 && dst[at + j] == src[j]
      invariant forall j :: 0 <= j < at ==> dst[j] == old(dst[j])
    {
      dst[at + i] := src[i];
      i := i + 1;
    }
    for k := i to |src|
      invariant forall j :: 0 <= j < i ==> dst[at + j] == src[j]
      invariant forall j :: at + i <= j < at + k ==> dst[j] == 0
      invariant forall j :: 0 <= j < at ==> dst[j] == old(dst[j])
    {
      dst[at + k] := 0;
    }
    StrNCpyParts(src, i);
    assert dst[at..at + i] == src[..i];
    assert dst[at + i..at + |src|] == seq(|src| - i, _ => 0);
    assert dst[at..at + |src|] == dst[at..at + i] + dst[at + i..at + |src|];
  }

  /** `realloc` to a larger size: a block that starts with the old block's text. */
  method Realloc(was: array?<byte>, len: nat, size: nat) returns (block: array<byte>)
    requires was == null ==> len == 0
    requires was != null ==> len <= was.Length
    requires len <= size
    ensures fresh(block) && block.Length == size
    ensures was != null ==> block[..len] == was[..len]
  {
    block := new byte[size];
    if was != null {
      for i := 0 to len
        invariant block[..i] == was[..i]
      {
        block[i] := was[i];
      }
    }
  }

  /** The scan of the dispatch table: the index of the row with the given name, if any. */
  method FindRow(rows: seq<Row>, name: string) returns (i: nat)
    ensures i <= |rows|
    ensures Scan(rows, name) == if i < |rows| then Some(rows[i]) else None
  {
    i := 0;
    while i < |rows| && rows[i].name != name
      invariant i <= |rows|
      invariant Scan(rows, name) == Scan(rows[i..], name)
    {
      assert rows[i..][1..] == rows[i + 1..];
      i := i + 1;
    }
  }

  class Context {
    const load: Bytes -> Option<Json>
    const cfg: Config
    var connected: bool
    var heartbeatInterval: nat
    var lastSeq: int
    var lastHb: Secs
    var hbCount: int
    var ring: seq<Json>
    var rxBuffer: array?<byte>
    var rxLen: nat
    var sessionId: Option<string>
    ghost var log: Log

    /** A NULL receive buffer has length 0, any other has room for a terminator; the ring keeps to its
        capacity; messages are read with the library's decoder. */
    ghost predicate Valid()
      reads this
    {
      && (rxBuffer == null ==> rxLen == 0)
      && (rxBuffer != null ==> rxLen < rxBuffer.Length)
      && |ring| <= cfg.capacity
      && forall msg :: cfg.read(msg) == ReadingOf(load(msg))
    }

    ghost function View(): State
      requires Valid()
      reads this, rxBuffer
    {
      State(connected, heartbeatInterval, lastSeq, lastHb, hbCount, ring,
            if rxBuffer == null then None else Some(rxBuffer[..rxLen]), sessionId, log)
    }

    /** `ld_init_context`, for a given `json_loadb` and `json_dumps`. */
    constructor (load: Bytes -> Option<Json>, dumps: Json -> string, capacity: nat, identify: Option<Json>, now: Secs)
      ensures Valid() && View() == Init(now)
      ensures !connected && heartbeatInterval == 0 && lastSeq == 0 && lastHb == now && hbCount == 0
      ensures ring == [] && rxBuffer == null && sessionId == None && log == Empty
      ensures this.load == load && cfg == Config(cfg.read, dumps, capacity, identify)
    {
      this.load := load;
      cfg := Config(msg => ReadingOf(load(msg)), dumps, capacity, identify);
      connected, heartbeatInterval, lastSeq, lastHb, hbCount := false, 0, 0, now, 0;
      ring, rxBuffer, rxLen, sessionId, log := [], null, 0, None, Empty;
    }

    /** `lws_ring_insert` of one payload: how many it took. */
    method RingInsert(p: Json) returns (n: nat)
      requires Valid()
      modifies this`ring, this`log
      ensures Valid() && View() == Insert(cfg, old(View()), p)
      ensures n == if |old(ring)| < cfg.capacity then 1 else 0
    {
      if |ring| < cfg.capacity {
        ring := ring + [p];
        log := Snoc(log, Accepted(p));
        n := 1;
      } else {
        log := Snoc(log, Refused(p));
        n := 0;
      }
    }

    method CallUser(reason: int, data: Option<Json>)
      requires Valid()
      modifies this`log
      ensures Valid() && View() == Session.CallUser(old(View()), reason, data)
    {
      log := Snoc(log, Called(reason, data, sessionId));
    }

    /** `ld_gateway_queue_heartbeat`: the caller's `hb_count` is left alone. */
    method QueueHeartbeat() returns (code: int)
      requires Valid()
      modifies this`ring, this`log
      ensures Valid() && View() == Insert(cfg, old(View()), Heartbeat(lastSeq))
      ensures code == if |old(ring)| < cfg.capacity then LDS_OK else LDS_CANTFIT_PAYLOAD_ERR
    {
      var hb := CreatePayload(Some(Integer(OPCODE_HEARTBEAT)), Some(Integer(lastSeq)), None, None);
      if cfg.capacity - |ring| == 0 {
        log := Snoc(log, Refused(hb.value));
        return LDS_CANTFIT_PAYLOAD_ERR;
      }
      var n := RingInsert(hb.value);
      if n != 1 {
        return LDS_CANTFIT_HEARTBEAT_ERR;
      }
      return LDS_OK;
    }

    /** `ld_dispatch_ready`: keep the first `session_id` of the data. */
    method DispatchReady(data: Option<Json>) returns (code: int)
      requires Valid()
      modifies this`sessionId
      ensures Valid()
      ensures var id := FirstValue(EntriesOf(data), SESSION_ID);
        && code == (if id.Some? then LDS_OK else LDS_ERROR)
        && View() == (if id.Some? then old(View()).(session := StringValue(id)) else old(View()))
    {
      var es := EntriesOf(data);
      var i := 0;
      while i < |es|
        invariant i <= |es|
        invariant FirstValue(es, SESSION_ID) == FirstValue(es[i..], SESSION_ID)
        invariant View() == old(View())
      {
        assert es[i..][1..] == es[i + 1..];
        if es[i].key == SESSION_ID {
          sessionId := StringValue(Some(es[i].value));
          return LDS_OK;
        }
        i := i + 1;
      }
      return LDS_ERROR;
    }

    /** `ld_gateway_dispatch_parser`. */
    method DispatchParser(kind: Option<Json>, data: Option<Json>, a: Answers) returns (code: int)
      requires Valid()
      modifies this`sessionId, this`log
      ensures Valid()
      ensures Outcome(View(), code) == Announce(old(View()), DispatchMeaning(kind, data), a)
    {
      var name := StringValue(kind);
      if name == None {
        return LDS_DISPATCH_TYPE_ERR;
      }
      var rows := TABLE;
      var i := FindRow(rows, name.value);
      if i == |rows| {
        assert DispatchMeaning(kind, data) == Unlisted;
        return LDS_OK;
      }
      assert DispatchMeaning(kind, data) == RowMeaning(rows[i], data);
      code := CallRow(rows[i], data, a);
    }

    /** The part of the scan that has found its row: the library's own callback, then the user's. */
    method CallRow(row: Row, data: Option<Json>, a: Answers) returns (code: int)
      requires Valid()
      modifies this`sessionId, this`log
      ensures Valid()
      ensures Outcome(View(), code) == Announce(old(View()), RowMeaning(row, data), a)
    {
      if row.library {
        var ret := DispatchReady(data);
        if ret != LDS_OK {
          return LDS_ERROR;
        }
      }
      CallUser(row.reason, data);
      code := a.userResult;
    }

    /** The first half of `ld_gateway_payload_parser`: visit the entries up to the first unknown key.
        The sequence number goes straight into the context. */
    method DecodeEntries(es: seq<Entry>)
      returns (complete: bool, opcode: nat, d: Option<Json>, t: Option<Json>)
      requires Valid()
      modifies this`lastSeq
      ensures Decoded(complete, opcode, d, t, Decode(es).s) == Decode(es)
      ensures lastSeq == SeqAfter(Decode(es).s, old(lastSeq))
    {
      complete, opcode, d, t := true, OPCODE_UNKNOWN, None, None;
      var i := 0;
      while i < |es|
        invariant i <= |es|
        invariant forall k :: 0 <= k < i ==> FieldOf(es[k].key) != Unknown
        invariant opcode == OpcodeIn(es[..i])
        invariant d == LastValue(es[..i], "d") && t == LastValue(es[..i], "t")
        invariant lastSeq == SeqAfter(LastValue(es[..i], "s"), old(lastSeq))
      {
        assert es[..i + 1][..i] == es[..i];
        var value := es[i].value;
        match FieldOf(es[i].key) {
          case Op => opcode := ToUint32(IntegerValue(value));
          case D => d := Some(value);
          case T => t := Some(value);
          case S => lastSeq := ToInt32(IntegerValue(value));
          case Unknown =>
            assert KnownPrefix(es) == i;
            complete := false;
            return;
        }
        i := i + 1;
      }
      assert KnownPrefix(es) == i && es[..i] == es;
    }

    /** `ld_gateway_payload_parser`. */
    method PayloadParser(msg: Bytes, a: Answers) returns (code: int)
      requires Valid()
      modifies this`heartbeatInterval, this`lastSeq, this`lastHb, this`hbCount, this`ring, this`sessionId, this`log
      ensures Valid()
      ensures Outcome(View(), code) == Parse(cfg, old(View()), msg, a)
    {
      var parsed := load(msg);
      log := Snoc(log, Delivered(msg));
      if parsed == None {
        return 1;
      }
      var complete, opcode, d, t := DecodeEntries(EntriesOf(parsed));
      if !complete {
        return 1;
      }
      assert View() == Decoding(cfg, old(View()), msg);
      code := ObeyOpcode(opcode, d, t, a);
    }

    /** The second half of `ld_gateway_payload_parser`: the switch over the opcode. */
    method ObeyOpcode(opcode: nat, d: Option<Json>, t: Option<Json>, a: Answers) returns (code: int)
      requires Valid()
      modifies this`heartbeatInterval, this`lastSeq, this`lastHb, this`hbCount, this`ring, this`sessionId, this`log
      ensures Valid()
      ensures Outcome(View(), code) == Obey(cfg, old(View()), OpcodeMeaning(opcode, d, t), a)
    {
      if opcode == OPCODE_DISPATCH {
        code := DispatchParser(t, d, a);
      } else if opcode == OPCODE_INVALIDATE_SESSION {
        sessionId := None;
        lastSeq := 0;
        code := LDS_OK;
      } else if opcode == OPCODE_HELLO {
        code := HandleHello(d, a);
      } else if opcode == OPCODE_HEARTBEAT_ACK {
        hbCount := hbCount - 1;
        code := LDS_OK;
      } else if opcode <= OPCODE_GUILD_SYNC {
        code := LDS_OK;
      } else {
        code := 1;
      }
    }

    /** The HELLO case: the interval, the IDENTIFY payload, the heartbeat timer. The result of the ring
        insertion is not looked at. */
    method HandleHello(d: Option<Json>, a: Answers) returns (code: int)
      requires Valid()
      modifies this`heartbeatInterval, this`lastHb, this`ring, this`log
      ensures Valid()
      ensures Outcome(View(), code) == Greet(cfg, old(View()), HelloInterval(d), a)
    {
      var hbi := DEFAULT_INTERVAL;
      var tmp := LastValue(EntriesOf(d), "heartbeat_interval");
      if tmp != None && IntegerValue(tmp.value) != 0 {
        hbi := ToUint32(IntegerValue(tmp.value));
      }
      assert hbi == HelloInterval(d);
      heartbeatInterval := hbi;
      var body := if sessionId != None then a.staleIdentify else cfg.identify;
      if body == None {
        return 1;
      }
      QueueIdentify(body.value);
      lastHb := a.now;
      return LDS_OK;
    }

    method QueueIdentify(body: Json)
      requires Valid()
      modifies this`ring, this`log
      ensures Valid() && View() == Insert(cfg, old(View()), Identify(body))
    {
      var payload := CreatePayload(Some(Integer(OPCODE_IDENTIFY)), Some(body), None, None);
      var _ := RingInsert(payload.value);
    }

    /** Grow the receive buffer and append a fragment; `spare` is what is allocated beyond the text. */
    method AppendFragment(data: Bytes, spare: nat)
      requires Valid() && spare > 0
      modifies this`rxBuffer, this`rxLen
      ensures Valid() && rxBuffer != null && fresh(rxBuffer)
      ensures rxLen == old(rxLen) + |data| && rxBuffer.Length == rxLen + spare
      ensures rxBuffer[..rxLen] == (if old(rxBuffer) == null then [] else old(rxBuffer[..rxLen])) + StrNCpy(data)
    {
      var buffer := Realloc(rxBuffer, rxLen, rxLen + |data| + spare);
      CopyText(buffer, rxLen, data);
      assert buffer[..rxLen + |data|] == buffer[..rxLen] + buffer[rxLen..rxLen + |data|];
      rxBuffer, rxLen := buffer, rxLen + |data|;
    }

    /** The last fragment of several: the whole message goes to the parser once. */
    method FinishMessage(data: Bytes, a: Answers) returns (code: int)
      requires Valid() && rxBuffer != null
      modifies this
      ensures Valid()
      ensures var o := Parse(cfg, old(View()), old(rxBuffer[..rxLen]) + StrNCpy(data), a);
        Outcome(View(), code) == o.(state := o.state.(rx := None))
    {
      AppendFragment(data, 2);
      rxBuffer[rxLen] := 0;
      ghost var before := old(View()).(rx := Some(rxBuffer[..rxLen]));
      code := PayloadParser(rxBuffer[..rxLen], a);
      ParseIgnoresRx(cfg, old(View()), before.rx.value, a, before.rx);
      rxBuffer, rxLen := null, 0;
    }

    /** The RECEIVE callback, on the real buffer: every write stays inside the block just allocated. */
    method OnReceive(data: Bytes, first: bool, final: bool, a: Answers) returns (code: int)
      requires Valid()
      modifies this
      ensures Valid()
      ensures Outcome(View(), code) == Receive(cfg, old(View()), data, first, final, a)
    {
      if rxBuffer == null && final {
        code := PayloadParser(data, a);
        rxBuffer, rxLen := null, 0;
        return;
      }
      if first {
        var buffer := new byte[|data| + 1];
        CopyText(buffer, 0, data);
        rxBuffer, rxLen := buffer, |data|;
        return LDS_OK;
      }
      if final && rxBuffer != null {
        code := FinishMessage(data, a);
        return;
      }
      AppendFragment(data, 1);
      return LDS_OK;
    }

    /** The WRITEABLE callback. */
    method OnWriteable(writeResult: int) returns (code: int)
      requires Valid()
      modifies this`ring, this`log
      ensures Valid()
      ensures Outcome(View(), code) == Send(cfg, old(View()), writeResult)
    {
      if |ring| == 0 {
        return LDS_OK;
      }
      var p := ring[0];
      ring := ring[1..];
      log := Snoc(log, Consumed(p));
      var text := cfg.dumps(p);
      if |text| <= 0 || writeResult < 0 || writeResult < |text| {
        log := Snoc(log, WriteFailed(p));
        return -1;
      }
      log := Snoc(log, Wrote(p));
      return LDS_OK;
    }

    /** `ld_lws_callback`. */
    method LwsCallback(e: Event) returns (code: int)
      requires Valid()
      modifies this
      ensures Valid()
      ensures Outcome(View(), code) == OnEvent(cfg, old(View()), e)
    {
      match e
      case ConnectionError(r) =>
        CallUser(CALLBACK_WS_CONNECTION_ERROR, None);
        connected := false;
        code := r;
      case Established(now, r) =>
        CallUser(CALLBACK_WS_ESTABLISHED, None);
        lastHb := now;
        code := r;
      case Fragment(data, first, final, a) =>
        code := OnReceive(data, first, final, a);
      case Writeable(writeResult) =>
        code := OnWriteable(writeResult);
      case WsiDestroy =>
        connected := false;
        code := LDS_OK;
      case OtherReason =>
        code := LDS_OK;
    }

    /** `lws_service`: the callbacks of this turn of the event loop. */
    method PumpEvents(events: seq<Event>)
      requires Valid()
      modifies this
      ensures Valid() && View() == Pump(cfg, old(View()), events)
    {
      for i := 0 to |events|
        invariant Valid()
        invariant Pump(cfg, View(), events[i..]) == Pump(cfg, old(View()), events)
      {
        assert events[i..][1..] == events[i + 1..];
        var _ := LwsCallback(events[i]);
      }
    }

    /** `ld_connect`, as far as the gateway is concerned. */
    method GatewayConnect(attempt: Connect) returns (code: int)
      requires Valid()
      modifies this
      ensures Valid()
      ensures attempt.Unreachable? ==> View() == old(View()) && code != LDS_OK
      ensures attempt.Started? ==>
        View() == Pump(cfg, old(View()).(connected := true), attempt.events) && (code == LDS_OK <==> connected)
    {
      match attempt
      case Unreachable =>
        code := LDS_ERROR;
      case Started(events) =>
        connected := true;
        PumpEvents(events);
        code := if connected then LDS_OK else LDS_ERROR;
    }

    /** The heartbeat check of `ld_service`. */
    method CheckHeartbeat(now: Secs, later: Secs) returns (code: int)
      requires Valid()
      modifies this`hbCount, this`lastHb, this`ring, this`log
      ensures Valid()
      ensures Outcome(View(), code) == Beat(cfg, old(View()), now, later)
    {
      if SubUlong(now, lastHb) > heartbeatInterval / 1000 && heartbeatInterval != 0 {
        hbCount := hbCount + 1;
        if hbCount > 1 {
          log := Snoc(log, Returned(LDS_ACK_MISSED));
          return LDS_ACK_MISSED;
        }
        var ret := QueueHeartbeat();
        if ret != LDS_OK {
          hbCount := hbCount - 1;
          log := Snoc(log, Returned(LDS_CANTFIT_HEARTBEAT_ERR));
          return LDS_CANTFIT_HEARTBEAT_ERR;
        }
        lastHb := later;
      }
      return LDS_OK;
    }

    /** `ld_service`. */
    method ServiceTick(tick: Tick) returns (code: int)
      requires Valid()
      modifies this
      ensures Valid()
      ensures Outcome(View(), code) == Service(cfg, old(View()), tick)
    {
      if !connected {
        code := GatewayConnect(tick.connect);
        code := if code != LDS_OK then LDS_CONNECTION_ERR else LDS_OK;
        log := Snoc(log, Returned(code));
        return;
      }
      code := CheckHeartbeat(tick.now, tick.later);
      if code != LDS_OK {
        return;
      }
      if |ring| != 0 {
        log := Snoc(log, WriteAsked);
      }
      PumpEvents(tick.events);
      log := Snoc(log, Returned(LDS_OK));
    }

    /** The application's loop. */
    method ServiceAll(ticks: seq<Tick>)
      requires Valid()
      modifies this
      ensures Valid() && View() == Run(cfg, old(View()), ticks)
    {
      for i := 0 to |ticks|
        invariant Valid()
        invariant Run(cfg, View(), ticks[i..]) == Run(cfg, old(View()), ticks)
      {
        assert ticks[i..][1..] == ticks[i + 1..];
        var _ := ServiceTick(ticks[i]);
      }
    }
  }
}
