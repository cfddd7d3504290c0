/**
 select on public socket handles, built on net_select, which knows only the internal socket
 numbers. The handle table is the function `toNet` (negative: not a socket) and the network
 stack's answer is the function `netSelect`.
 */
module SelectShim {

  /** An fd_set in the caller's hands. */
  class FdSet {
    var bits: set<int>

    constructor (bits: set<int>)
      ensures this.bits == bits
    {
      this.bits := bits;
    }
  }

  datatype Answer = Answer(ret: int, r: set<int>, w: set<int>, e: set<int>)

  type NetSelect = (int, set<int>, set<int>, set<int>) -> Answer

  /** net_select, when it succeeds, leaves some of the sockets it was given and returns how many bits it left. */
  ghost predicate Honest(netSelect: NetSelect) {
    forall n: int, r: set<int>, w: set<int>, e: set<int> :: var a := netSelect(n, r, w, e);
      a.ret >= 0 ==> a.r <= r && a.w <= w && a.e <= e && a.ret == |a.r| + |a.w| + |a.e|
  }

  /** Different handles of sockets have different socket numbers. */
  ghost predicate Injective(toNet: int -> int) {
    forall a, b :: toNet(a) == toNet(b) && toNet(a) >= 0 ==> a == b
  }

  /** The socket numbers of the handles below `nfds` in a set. */
  ghost function Requested(toNet: int -> int, nfds: int, bits: set<int>): set<int> {
    set fd | 0 <= fd < nfds && fd in bits && toNet(fd) >= 0 :: toNet(fd)
  }

  /** What is asked for: handles below `nfds` that are in the set and whose sockets are in `ready`. */
  function Selected(toNet: int -> int, nfds: int, bits: set<int>, ready: set<int>): set<int> {
    set fd | fd in bits && 0 <= fd < nfds && toNet(fd) >= 0 && toNet(fd) in ready
  }

  function Beyond(nfds: int, bits: set<int>): set<int> {
    set fd | fd in bits && !(0 <= fd < nfds)
  }

  /** The largest socket number of a handle below `nfds`, or 0. */
  function MaxNet(toNet: int -> int, nfds: nat): (m: int)
    ensures m >= 0 && forall fd :: 0 <= fd < nfds ==> toNet(fd) <= m
    ensures m == 0 || exists fd :: 0 <= fd < nfds && toNet(fd) == m
  {
    if nfds == 0 then 0
    else
      var m := MaxNet(toNet, nfds - 1);
      if toNet(nfds - 1) > m then toNet(nfds - 1) else m
  }

  ghost function Bits(s: FdSet?): set<int>
    reads s
  {
    if s == null then {} else s.bits
  }

  /** The answer used: an error counts as nothing ready. */
  ghost function Effective(toNet: int -> int, netSelect: NetSelect, nfds: int, r0: set<int>, w0: set<int>, e0: set<int>): Answer {
    var a := netSelect(MaxNet(toNet, if nfds < 0 then 0 else nfds) + 1,
                       Requested(toNet, nfds, r0), Requested(toNet, nfds, w0), Requested(toNet, nfds, e0));
    if a.ret < 0 then Answer(0, {}, {}, {}) else a
  }

  /** What a caller's set holds afterwards. */
  ghost function Outcome(toNet: int -> int, nfds: int, bits: set<int>, ready: set<int>): set<int> {
    Selected(toNet, nfds, bits, ready) + Beyond(nfds, bits)
  }

  /** Every requested socket lies below the bound that net_select is given. */
  lemma RequestedBelowBound(toNet: int -> int, nfds: nat, bits: set<int>, nfd: int)
    requires nfd in Requested(toNet, nfds, bits)
    ensures 0 <= nfd < MaxNet(toNet, nfds) + 1
  {
  }

  /** A network stack in which `r`, `w` and `e` are ready: it looks at the sockets below the bound alone. */
  ghost predicate Answers(netSelect: NetSelect, r: set<int>, w: set<int>, e: set<int>) {
    forall n: int, ar: set<int>, aw: set<int>, ae: set<int> :: var a := netSelect(n, ar, aw, ae);
      a.ret >= 0 && a.r == Below(n, ar) * r && a.w == Below(n, aw) * w && a.e == Below(n, ae) * e
  }

  ghost function Below(n: int, sockets: set<int>): set<int> { set s | s in sockets && s < n }

  /**
   With it a caller's set ends up with exactly the requested handles below `nfds` whose sockets
   are ready, none being beyond the bound, and with the bits it had from `nfds` on.
   */
  lemma ReadyAreSelected(toNet: int -> int, netSelect: NetSelect, nfds: int, r0: set<int>, w0: set<int>, e0: set<int>,
                         r: set<int>, w: set<int>, e: set<int>, fd: int)
    requires Answers(netSelect, r, w, e)
    ensures var a := Effective(toNet, netSelect, nfds, r0, w0, e0);
            && (fd in Outcome(toNet, nfds, r0, a.r) <==> fd in r0 && (0 <= fd < nfds ==> toNet(fd) >= 0 && toNet(fd) in r))
            && (fd in Outcome(toNet, nfds, w0, a.w) <==> fd in w0 && (0 <= fd < nfds ==> toNet(fd) >= 0 && toNet(fd) in w))
            && (fd in Outcome(toNet, nfds, e0, a.e) <==> fd in e0 && (0 <= fd < nfds ==> toNet(fd) >= 0 && toNet(fd) in e))
  {
    var n := MaxNet(toNet, if nfds < 0 then 0 else nfds) + 1;
    var ar, aw, ae := Requested(toNet, nfds, r0), Requested(toNet, nfds, w0), Requested(toNet, nfds, e0);
    var a := netSelect(n, ar, aw, ae);
    assert a.ret >= 0 && a.r == Below(n, ar) * r && a.w == Below(n, aw) * w && a.e == Below(n, ae) * e;
    if 0 <= fd < nfds && toNet(fd) >= 0 {
      assert toNet(fd) < n;
      assert fd in r0 ==> toNet(fd) in ar;
      assert fd in w0 ==> toNet(fd) in aw;
      assert fd in e0 ==> toNet(fd) in ae;
    }
  }

  /**
   The whole of select. Each output set holds exactly the requested ready sockets below
   `nfds` and keeps its bits from `nfds` on; the result counts the former in all three sets.
   A set that is passed twice ends up as the later one of its places says.
   */
  method Select(nfds: int, readfds: FdSet?, writefds: FdSet?, exceptfds: FdSet?,
                toNet: int -> int, netSelect: NetSelect) returns (ret: int)
    requires Injective(toNet) && Honest(netSelect)
    modifies readfds, writefds, exceptfds
    ensures var a := Effective(toNet, netSelect, nfds, old(Bits(readfds)), old(Bits(writefds)), old(Bits(exceptfds)));
            && (readfds != null && readfds != writefds && readfds != exceptfds ==>
                 readfds.bits == Outcome(toNet, nfds, old(readfds.bits), a.r))
            && (writefds != null && writefds != exceptfds ==>
                 writefds.bits == Outcome(toNet, nfds, old(writefds.bits), a.w))
            && (exceptfds != null ==> exceptfds.bits == Outcome(toNet, nfds, old(exceptfds.bits), a.e))
            && ret == |Selected(toNet, nfds, old(Bits(readfds)), a.r)| +
                      |Selected(toNet, nfds, old(Bits(writefds)), a.w)| +
                      |Selected(toNet, nfds, old(Bits(exceptfds)), a.e)|
  {
    hide Requested, Selected, Outcome, MaxNet, Injective, Honest;
    var r0: set<int>, w0: set<int>, e0: set<int> := {}, {}, {};
    if readfds != null {
      r0 := readfds.bits;
    }
    if writefds != null {
      w0 := writefds.bits;
    }
    if exceptfds != null {
      e0 := exceptfds.bits;
    }
    var r, w, e, maxfd := Translate(nfds, r0, w0, e0, toNet);
    var a := netSelect(maxfd + 1, r, w, e);
    HonestAnswer(netSelect, maxfd + 1, r, w, e);
    ret, r, w, e := a.ret, a.r, a.w, a.e;
    if ret < 0 {
      r, w, e := {}, {}, {};
      ret := 0;
    }
    SelectedSize(toNet, nfds, r0, r);
    SelectedSize(toNet, nfds, w0, w);
    SelectedSize(toNet, nfds, e0, e);
    WriteBack(readfds, nfds, toNet, r0, r);
    WriteBack(writefds, nfds, toNet, w0, w);
    WriteBack(exceptfds, nfds, toNet, e0, e);
  }

  lemma HonestAnswer(netSelect: NetSelect, n: int, r: set<int>, w: set<int>, e: set<int>)
    requires Honest(netSelect)
    ensures var a := netSelect(n, r, w, e);
            a.ret >= 0 ==> a.r <= r && a.w <= w && a.e <= e && a.ret == |a.r| + |a.w| + |a.e|
  {
  }

  /** The first loop of select. */
  method Translate(nfds: int, r0: set<int>, w0: set<int>, e0: set<int>, toNet: int -> int)
    returns (r: set<int>, w: set<int>, e: set<int>, maxfd: int)
    ensures r == Requested(toNet, nfds, r0) && w == Requested(toNet, nfds, w0) && e == Requested(toNet, nfds, e0)
    ensures maxfd == MaxNet(toNet, if nfds < 0 then 0 else nfds)
  {
    hide Requested;
    r, w, e, maxfd := {}, {}, {}, 0;
    var fd := 0;
    RequestedNothing(toNet, fd, r0);
    RequestedNothing(toNet, fd, w0);
    RequestedNothing(toNet, fd, e0);
    while fd < nfds
      invariant 0 <= fd && (fd <= nfds || fd == 0)
      invariant r == Requested(toNet, fd, r0) && w == Requested(toNet, fd, w0) && e == Requested(toNet, fd, e0)
      invariant maxfd == MaxNet(toNet, fd)
    {
      RequestedStep(toNet, fd, r0);
      RequestedStep(toNet, fd, w0);
      RequestedStep(toNet, fd, e0);
      var nfd := toNet(fd);
      fd := fd + 1;
      if nfd < 0 {
        continue;
      }
      if nfd > maxfd {
        maxfd := nfd;
      }
      if fd - 1 in r0 {
        r := r + {nfd};
      }
      if fd - 1 in w0 {
        w := w + {nfd};
      }
      if fd - 1 in e0 {
        e := e + {nfd};
      }
    }
    if nfds < 0 {
      RequestedNothing(toNet, nfds, r0);
      RequestedNothing(toNet, nfds, w0);
      RequestedNothing(toNet, nfds, e0);
    }
  }

  lemma RequestedNothing(toNet: int -> int, nfds: int, bits: set<int>)
    requires nfds <= 0
    ensures Requested(toNet, nfds, bits) == {}
  {
  }

  /** One of the loops that turn the answer back into a caller's set. */
  method WriteBack(s: FdSet?, nfds: int, toNet: int -> int, asked: set<int>, ready: set<int>)
    requires Injective(toNet) && ready <= Requested(toNet, nfds, asked)
    modifies s
    ensures s != null ==> s.bits == Outcome(toNet, nfds, asked, ready)
  {
    if s == null {
      return;
    }
    s.bits := asked;
    var fd := 0;
    while fd < nfds
      invariant 0 <= fd
      invariant forall k :: 0 <= k < fd && k < nfds ==> (k in s.bits <==> k in Selected(toNet, nfds, asked, ready))
      invariant forall k :: !(0 <= k < fd) || k >= nfds ==> (k in s.bits <==> k in asked)
    {
      hide Requested, Injective, Beyond;
      var nfd := toNet(fd);
      if nfd >= 0 && nfd in ready {
        ReadyIsAsked(toNet, nfds, asked, ready, fd);
        s.bits := s.bits + {fd};
      } else {
        s.bits := s.bits - {fd};
      }
      fd := fd + 1;
    }
    assert forall k :: k in s.bits <==> k in Selected(toNet, nfds, asked, ready) + Beyond(nfds, asked);
  }

  lemma ReadyIsAsked(toNet: int -> int, nfds: int, asked: set<int>, ready: set<int>, fd: int)
    requires Injective(toNet) && ready <= Requested(toNet, nfds, asked) && toNet(fd) >= 0 && toNet(fd) in ready
    ensures fd in asked && 0 <= fd < nfds
  {
    var k :| 0 <= k < nfds && k in asked && toNet(k) == toNet(fd);
    assert k == fd;
  }

  lemma RequestedStep(toNet: int -> int, fd: nat, bits: set<int>)
    ensures Requested(toNet, fd + 1, bits) ==
            Requested(toNet, fd, bits) + if fd in bits && toNet(fd) >= 0 then {toNet(fd)} else {}
  {
  }

  /** Every ready socket stands for one requested handle, and no two for the same. */
  lemma {:induction false} SelectedSize(toNet: int -> int, nfds: int, bits: set<int>, ready: set<int>)
    requires Injective(toNet) && ready <= Requested(toNet, nfds, bits)
    ensures |Selected(toNet, nfds, bits, ready)| == |ready|
    decreases if nfds < 0 then 0 else nfds
  {
    hide Selected, Requested, Injective;
    if nfds <= 0 {
      RequestedNothing(toNet, nfds, bits);
      SelectedNothing(toNet, nfds, bits, ready);
    } else {
      var fd := nfds - 1;
      var others := ready - {toNet(fd)};
      RequestedStep(toNet, fd, bits);
      SelectedStep(toNet, fd, bits, ready);
      OthersAsked(ready, Requested(toNet, nfds, bits), Requested(toNet, fd, bits), toNet(fd));
      SelectedSize(toNet, fd, bits, others);
      if toNet(fd) in ready {
        SocketsAreNumbers(toNet, nfds, bits, toNet(fd));
        ReadyIsAsked(toNet, nfds, bits, ready, fd);
      }
    }
  }

  lemma OthersAsked(ready: set<int>, asked: set<int>, before: set<int>, nfd: int)
    requires ready <= asked && (asked == before || asked == before + {nfd})
    ensures ready - {nfd} <= before && |ready| == |ready - {nfd}| + if nfd in ready then 1 else 0
  {
    if nfd in ready {
      assert ready == ready - {nfd} + {nfd};
    } else {
      assert ready == ready - {nfd};
    }
  }

  lemma SocketsAreNumbers(toNet: int -> int, nfds: int, bits: set<int>, nfd: int)
    requires nfd in Requested(toNet, nfds, bits)
    ensures nfd >= 0
  {
  }

  lemma SelectedNothing(toNet: int -> int, nfds: int, bits: set<int>, ready: set<int>)
    requires nfds <= 0
    ensures Selected(toNet, nfds, bits, ready) == {}
  {
  }

  lemma SelectedStep(toNet: int -> int, fd: nat, bits: set<int>, ready: set<int>)
    requires Injective(toNet)
    ensures |Selected(toNet, fd + 1, bits, ready)| ==
            |Selected(toNet, fd, bits, ready - {toNet(fd)})| +
            if fd in bits && toNet(fd) >= 0 && toNet(fd) in ready then 1 else 0
  {
    var before, after := Selected(toNet, fd, bits, ready - {toNet(fd)}), Selected(toNet, fd + 1, bits, ready);
    forall k
      ensures k in after <==> k in before || (k == fd && fd in bits && toNet(fd) >= 0 && toNet(fd) in ready)
    {
      assert toNet(k) == toNet(fd) && toNet(k) >= 0 ==> k == fd;
    }
    if fd in bits && toNet(fd) >= 0 && toNet(fd) in ready {
      assert after == before + {fd};
    } else {
      assert after == before;
    }
  }
}
