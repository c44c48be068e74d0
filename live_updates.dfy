/** The live seat-update registry of server/routes.ts: every open event
    stream of GET /api/shows/:id/seats/stream is an entry (show, connection)
    in a list; a seat change of a show is pushed to that show's entries, and a
    closed stream removes its entry. Connections are compared by identity,
    modelled as an integer handle. */
module LiveUpdates {
  import opened Common

  datatype Client = Client(showId: int, conn: int)

  predicate OnConn(c: Client, conn: int) {
    c.conn == conn
  }

  /** `sseClients.filter(client => client.showId === showId)` */
  function Audience(cs: seq<Client>, showId: int): seq<Client> {
    Filter(cs, (c: Client) => c.showId == showId)
  }

  /** The close handler: `findIndex` by connection, then `splice(index, 1)`
      when found. */
  function RemoveFirst(cs: seq<Client>, conn: int): seq<Client> {
    match FirstIndex(cs, (c: Client) => OnConn(c, conn))
    case None => cs
    case Some(i) => cs[..i] + cs[i + 1..]
  }

  function OtherConns(cs: seq<Client>, conn: int): seq<Client> {
    Filter(cs, (c: Client) => !OnConn(c, conn))
  }

  function SameConn(cs: seq<Client>, conn: int): seq<Client> {
    Filter(cs, (c: Client) => OnConn(c, conn))
  }

  /** Closing a connection leaves every entry of other connections in its
      order. */
  lemma CloseKeepsOthers(cs: seq<Client>, conn: int)
    ensures OtherConns(RemoveFirst(cs, conn), conn) == OtherConns(cs, conn)
  {
    var f := FirstIndex(cs, (c: Client) => OnConn(c, conn));
    if f.Some? {
      var i := f.value;
      SpliceFilter(cs, i, (c: Client) => !OnConn(c, conn));
    }
  }

  /** Closing a registered connection drops exactly one of its entries;
      closing an unknown one changes nothing. */
  lemma CloseDropsOne(cs: seq<Client>, conn: int)
    ensures (exists k :: 0 <= k < |cs| && OnConn(cs[k], conn)) ==>
              |SameConn(RemoveFirst(cs, conn), conn)| == |SameConn(cs, conn)| - 1
    ensures (forall k :: 0 <= k < |cs| ==> !OnConn(cs[k], conn)) ==> RemoveFirst(cs, conn) == cs
  {
    var f := FirstIndex(cs, (c: Client) => OnConn(c, conn));
    if f.Some? {
      var i := f.value;
      SpliceFilter(cs, i, (c: Client) => OnConn(c, conn));
    }
  }

  /** Filtering before and after taking out the element at `i`. */
  lemma SpliceFilter<T>(s: seq<T>, i: nat, p: T -> bool)
    requires i < |s|
    ensures Filter(s, p) == Filter(s[..i], p) + (if p(s[i]) then [s[i]] else []) + Filter(s[i + 1..], p)
    ensures Filter(s[..i] + s[i + 1..], p) == Filter(s[..i], p) + Filter(s[i + 1..], p)
  {
    SplitAt(s, i);
    FilterAround(s[..i], s[i], s[i + 1..], p);
  }

  lemma SplitAt<T>(s: seq<T>, i: nat)
    requires i < |s|
    ensures s == s[..i] + [s[i]] + s[i + 1..]
  {
  }

  lemma FilterAround<T>(a: seq<T>, x: T, b: seq<T>, p: T -> bool)
    ensures Filter(a + [x] + b, p) == Filter(a, p) + (if p(x) then [x] else []) + Filter(b, p)
    ensures Filter(a + b, p) == Filter(a, p) + Filter(b, p)
  {
    FilterAppend(a + [x], b, p);
    FilterSnoc(a, x, p);
    FilterAppend(a, b, p);
  }

  /** A stream that connects and closes again leaves the registry as it was,
      when its connection was not registered before. */
  lemma ConnectThenClose(cs: seq<Client>, showId: int, conn: int)
    requires forall k :: 0 <= k < |cs| ==> !OnConn(cs[k], conn)
    ensures RemoveFirst(cs + [Client(showId, conn)], conn) == cs
  {
    var t := cs + [Client(showId, conn)];
    var f := FirstIndex(t, (c: Client) => OnConn(c, conn));
    assert OnConn(t[|cs|], conn);
    assert f == Some(|cs|) by {
      forall k | 0 <= k < |cs| ensures !OnConn(t[k], conn) {
        assert t[k] == cs[k];
      }
    }
    assert t[..|cs|] == cs;
  }

  /** A connected stream receives the updates of its show and of no other. */
  lemma ConnectJoinsAudience(cs: seq<Client>, showId: int, conn: int, other: int)
    ensures Client(showId, conn) in Audience(cs + [Client(showId, conn)], showId)
    ensures other != showId ==> Audience(cs + [Client(showId, conn)], other) == Audience(cs, other)
  {
    FilterSnoc(cs, Client(showId, conn), (c: Client) => c.showId == showId);
    FilterSnoc(cs, Client(showId, conn), (c: Client) => c.showId == other);
  }

  class Registry {
    var clients: seq<Client>

    constructor ()
      ensures clients == []
    {
      clients := [];
    }

    /** The stream handler registers the connection. */
    method Connect(showId: int, conn: int)
      modifies this
      ensures clients == old(clients) + [Client(showId, conn)]
    {
      clients := clients + [Client(showId, conn)];
    }

    /** The stream's close handler. */
    method Close(conn: int)
      modifies this
      ensures clients == RemoveFirst(old(clients), conn)
    {
      var i := 0;
      while i < |clients| && clients[i].conn != conn
        invariant 0 <= i <= |clients|
        invariant forall k :: 0 <= k < i ==> !OnConn(clients[k], conn)
      {
        i := i + 1;
      }
      var f := FirstIndex(clients, (c: Client) => OnConn(c, conn));
      if i < |clients| {
        assert f == Some(i);
        clients := clients[..i] + clients[i + 1..];
      } else {
        assert f.None?;
      }
    }

    /** `broadcastSeatUpdate(showId)`: the entries that receive the event, in
        registration order: exactly the registered entries of that show. */
    method Broadcast(showId: int) returns (targets: seq<Client>)
      ensures targets == Audience(clients, showId)
      ensures forall c :: c in targets <==> c in clients && c.showId == showId
    {
      targets := [];
      var i := 0;
      while i < |clients|
        invariant 0 <= i <= |clients|
        invariant targets == Audience(clients[..i], showId)
      {
        FilterSnoc(clients[..i], clients[i], (c: Client) => c.showId == showId);
        assert clients[..i + 1] == clients[..i] + [clients[i]];
        if clients[i].showId == showId {
          targets := targets + [clients[i]];
        }
        i := i + 1;
      }
      assert clients[..i] == clients;
      forall c ensures c in targets <==> c in clients && c.showId == showId {
        FilterMembership(clients, (c: Client) => c.showId == showId, c);
      }
    }
  }
}
