// Send-side flow control: bytes charged per stream and for the connection.
module FlowControl {
  import opened Common

  /** The flow controller of a stream. A window of 0 stands for the initial window. */
  datatype Controller = Controller(sent: nat, window: nat, retrans: nat, contributes: bool)

  datatype Flow = Flow(
    streams: map<StreamID, Controller>,
    connSent: nat,
    connWindow: nat,
    connRetrans: nat,
    initialWindow: nat,
    initialConnWindow: nat)
  {
    function StreamWindow(id: StreamID): nat
      requires id in streams
    {
      if streams[id].window == 0 then initialWindow else streams[id].window
    }

    function ConnWindow(): nat
    {
      if connWindow == 0 then initialConnWindow else connWindow
    }

    function ConnRemaining(): nat
    {
      if connSent > ConnWindow() then 0 else ConnWindow() - connSent
    }

    // What may still be sent on a stream; nothing on a stream that does not exist.
    function SendWindowSize(id: StreamID): nat
    {
      if id !in streams then 0 else
      var c := streams[id];
      var w := if c.sent > StreamWindow(id) then 0 else StreamWindow(id) - c.sent;
      if c.contributes then Min(w, ConnRemaining()) else w
    }

    function NewStream(id: StreamID, contributes: bool): Flow
    {
      if id in streams then this else this.(streams := streams[id := Controller(0, 0, 0, contributes)])
    }

    function AddBytesSent(id: StreamID, n: nat): Flow
    {
      if id !in streams then this
      else this.(streams := streams[id := streams[id].(sent := streams[id].sent + n)],
                 connSent := if streams[id].contributes then connSent + n else connSent)
    }

    function AddBytesRetrans(id: StreamID, n: nat): Flow
    {
      if id !in streams then this
      else this.(streams := streams[id := streams[id].(retrans := streams[id].retrans + n)],
                 connRetrans := if streams[id].contributes then connRetrans + n else connRetrans)
    }

    // A WINDOW_UPDATE; stream 0 stands for the connection.
    function UpdateWindow(id: StreamID, offset: nat): Flow
    {
      if id == 0 then (if offset > connWindow then this.(connWindow := offset) else this)
      else if id in streams && offset > streams[id].window then
        this.(streams := streams[id := streams[id].(window := offset)])
      else this
    }
  }

  /** The window of a stream is the largest number of bytes that keeps it within its own limit and, if
      it contributes, the connection within its. A limit is the last update, or the initial one before
      the first; a stream that does not exist has no window. */
  lemma WindowExact(f: Flow, id: StreamID, n: nat)
    requires n > 0
    ensures n <= f.SendWindowSize(id) <==>
      && id in f.streams
      && var c := f.streams[id];
      && c.sent + n <= (if c.window == 0 then f.initialWindow else c.window)
      && (c.contributes ==> f.connSent + n <= if f.connWindow == 0 then f.initialConnWindow else f.connWindow)
  {
  }

  // The bytes sent, the last window update and the window in force of a stream or, under 0, of the connection.
  datatype Account = Account(sent: nat, updated: nat, window: nat)

  function AccountOf(f: Flow, id: StreamID): Account
    requires id == 0 || id in f.streams
  {
    if id == 0 then Account(f.connSent, f.connWindow, f.ConnWindow())
    else Account(f.streams[id].sent, f.streams[id].window, f.StreamWindow(id))
  }

  /** A window update raises the window of its stream, or of the connection, to the offset if that is
      larger than the last update; nothing else changes, and an update for an unknown stream is ignored. */
  lemma UpdateExact(f: Flow, id: StreamID, offset: nat)
    ensures var f' := f.UpdateWindow(id, offset);
      if id == 0 then f' == f.(connWindow := f'.connWindow) && IsLarger(f'.connWindow, f.connWindow, offset)
      else if id in f.streams then
        && f' == f.(streams := f'.streams) && f'.streams.Keys == f.streams.Keys
        && (forall k :: k in f.streams && k != id ==> f'.streams[k] == f.streams[k])
        && f'.streams[id] == f.streams[id].(window := f'.streams[id].window)
        && IsLarger(f'.streams[id].window, f.streams[id].window, offset)
      else f' == f
  {
  }

  /** A window update keeps the bytes sent within the window exactly if the new offset covers
      them or is ignored: the first update replaces the initial window even if it is smaller. */
  lemma UpdateKeepsWindowIff(f: Flow, id: StreamID, offset: nat)
    requires (id == 0 || id in f.streams) && AccountOf(f, id).sent <= AccountOf(f, id).window
    ensures var a, b := AccountOf(f, id), AccountOf(f.UpdateWindow(id, offset), id);
      b.sent == a.sent && (b.sent <= b.window <==> offset <= a.updated || a.sent <= offset)
  {
  }
}
