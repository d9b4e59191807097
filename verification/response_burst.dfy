/** A connection whose last message gets more fragments than sendmsg takes. */
module ResponseBurst {
  import opened Response

  /** Ten messages in a list of ten, the last with IOV_MAX fragments. */
  method FillList() returns (c: Conn)
    ensures fresh(c) && c.Valid() && !c.udp && !TooMany(c.msgs)
    ensures |c.msgs| == c.msgsize == 10 && c.msgs[9].len == IOV_MAX
  {
    c := new Conn(false);
    var ok := c.AddMsghdr(false, Granted);
    while !(|c.msgs| == 10 && c.msgs[|c.msgs| - 1].len == IOV_MAX)
      invariant c.Valid() && fresh(c) && !c.udp && !c.overfull
      invariant c.msgsize == 10 && 1 <= |c.msgs| <= 10 && c.msgs[|c.msgs| - 1].len <= IOV_MAX && c.msgbytes == 0
      decreases 10 - |c.msgs|, IOV_MAX - c.msgs[|c.msgs| - 1].len
    {
      ghost var q := c.Counted();
      EmptyTurn(q);
      ghost var taken;
      ok, taken := c.AddIov("", [], Granted);
      assert c.Counted() == Put(Target(q, false), 0);
    }
  }

  /** One byte more, and no memory for an eleventh message: the last message bursts. */
  method BurstOnRefusal() returns (c: Conn, ghost before: seq<Msg>)
    ensures fresh(c) && c.Valid() && !TooMany(before) && TooMany(c.msgs)
  {
    c := FillList();
    before := c.msgs;
    ghost var q := c.Counted();
    assert q.n == 10 && q.size == 10 && q.last == IOV_MAX && !q.udp && Next([true]);
    ghost var taken;
    var ok;
    ok, taken := c.AddIov("x", [true], Granted);
    TcpBurstsIff(q, 1, [true]);
  }

  /** The same call with memory for it does not. */
  method NoBurstOnGrant() returns (c: Conn)
    ensures fresh(c) && c.Valid() && !TooMany(c.msgs)
  {
    c := FillList();
    ghost var q := c.Counted();
    ghost var taken;
    var ok;
    ok, taken := c.AddIov("x", [], Granted);
    TcpBurstsIff(q, 1, []);
  }
}
