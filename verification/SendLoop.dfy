/** The partial-write loops of core/nty_socket.c: the hooked `send` (and `write`, whose loop is the
    same) over the kernel's call, and nty_send over the hooked `send`.

    Both count the bytes sent in an int, which wraps around, and compare it with a size_t. */
module SendLoop {
  import opened Common

  /** The most that Linux transfers in one call. */
  const MAX_RW_COUNT := 0x7fff_f000

  /** No object is larger. */
  const PTRDIFF_MAX := 0x7fff_ffff_ffff_ffff

  /** An int that was assigned `x`. */
  function ToInt(x: nat): (i: int)
    requires x < 0x1_0000_0000
    ensures i <= INT_MAX && (x <= INT_MAX ==> i == x) && (x > INT_MAX ==> i < 0)
  {
    if x <= INT_MAX then x else x - 0x1_0000_0000
  }

  /** An int converted to size_t. */
  function ToSize(i: int): (n: int)
    ensures i >= 0 ==> n == i
  {
    if i >= 0 then i else i + 0x1_0000_0000_0000_0000
  }

  /** The kernel's side of one descriptor.  It may answer anything at every call, except that it
      never takes more than it is given; `scheduled` says whether the thread has a scheduler. */
  class Kernel {
    const answer: nat -> int
    const scheduled: bool
    var accepted: seq<byte>
    var results: seq<int>
    var waits: nat

    constructor (answers: nat -> int, sched: bool)
      ensures answer == answers && scheduled == sched
      ensures accepted == [] && results == [] && waits == 0
    {
      answer, scheduled := answers, sched;
      accepted, results, waits := [], [], 0;
    }

    /** The kernel always takes something. */
    ghost predicate Obliging() { forall n :: answer(n) > 0 }

    /** send_f or write_f. */
    method Transfer(data: seq<byte>) returns (r: int)
      modifies this`accepted, this`results
      ensures r <= |data| && r <= MAX_RW_COUNT && results == old(results) + [r]
      ensures accepted == old(accepted) + if r > 0 then data[..r] else []
      ensures Obliging() && data != [] ==> r > 0
    {
      r := answer(|results|);
      if r > |data| { r := |data|; }
      if r > MAX_RW_COUNT { r := MAX_RW_COUNT; }
      if r > 0 { accepted := accepted + data[..r]; }
      results := results + [r];
    }

    /** nty_poll_inner for one descriptor: waits, if there is a scheduler to wait with. */
    method Poll()
      modifies this`waits
      ensures waits == old(waits) + if scheduled then 1 else 0
    {
      if scheduled { waits := waits + 1; }
    }
  }

  function Last(h: seq<int>): int
    requires h != []
  {
    h[|h| - 1]
  }

  /** The bytes the kernel says it took. */
  function Taken(h: seq<int>): (n: nat)
  {
    if h == [] then 0 else Taken(h[..|h| - 1]) + if Last(h) > 0 then Last(h) else 0
  }

  lemma TakenOne(h: seq<int>, r: int)
    ensures Taken(h + [r]) == Taken(h) + if r > 0 then r else 0
  {
    assert (h + [r])[..|h|] == h;
  }

  lemma {:induction false} TakenMore(h: seq<int>, g: seq<int>)
    ensures Taken(h + g) == Taken(h) + Taken(g)
  {
    if g == [] {
      assert h + g == h;
    } else {
      var f := g[..|g| - 1];
      assert h + g == h + f + [Last(g)] && g == f + [Last(g)];
      TakenMore(h, f);
      TakenOne(h + f, Last(g));
    }
  }

  /** No call in `h` took anything. */
  ghost predicate Refused(h: seq<int>) { forall i :: 0 <= i < |h| ==> h[i] <= 0 }

  lemma {:induction false} RefusedTaken(h: seq<int>)
    requires Refused(h)
    ensures Taken(h) == 0
  {
    if h != [] { RefusedTaken(h[..|h| - 1]); }
  }

  /** Every call in `h` took something. */
  ghost predicate Taking(h: seq<int>) { forall i :: 0 <= i < |h| ==> h[i] > 0 }

  /** What a return of `r` is to mean, `h` being the kernel's answers: a positive `r` is the number of
      bytes taken; otherwise `r` is the last answer and no call took anything. */
  ghost predicate Account(r: int, h: seq<int>)
  {
    && h != []
    && (r > 0 ==> r == Taken(h))
    && (r <= 0 ==> r == Last(h) && Refused(h))
  }

  /** A loop that took something stopped short exactly when the last answer was not positive. */
  predicate Short(r: int, h: seq<int>, len: nat)
  {
    h != [] && (r > 0 ==> (r < len <==> Last(h) <= 0))
  }

  /** An int cannot account for more than INT_MAX bytes. */
  lemma AccountFits(r: int, h: seq<int>)
    requires Account(r, h) && r <= INT_MAX
    ensures Taken(h) <= INT_MAX
  {
    if r <= 0 { RefusedTaken(h); }
  }

  /** A kernel that always takes something is given everything, however long that is. */
  lemma TooLong(r: int, h: seq<int>, len: nat)
    requires h != [] && Taking(h) && r <= INT_MAX < len
    ensures !(Account(r, h) && Short(r, h, len))
  {
    assert Last(h) > 0;
  }

  // ----- when such a loop calls again -----

  /** After the results `h` there is another call if and only if some bytes are left, the count has not
      wrapped around, and the last call took something or was a first failure. */
  predicate GoesOn(h: seq<int>, len: nat)
    requires h != []
  {
    Taken(h) < len && Taken(h) <= INT_MAX && (Last(h) > 0 || (|h| == 1 && Last(h) < 0))
  }

  ghost predicate Path(h: seq<int>, len: nat) { forall i :: 0 < i < |h| ==> GoesOn(h[..i], len) }

  /** The results of a whole loop over `len` bytes: it went on exactly as long as it had to. */
  ghost predicate Loop(h: seq<int>, len: nat) { h != [] && Path(h, len) && !GoesOn(h, len) }

  lemma PathOn(h: seq<int>, len: nat, x: int)
    requires h != [] && Path(h, len) && GoesOn(h, len)
    ensures Path(h + [x], len)
  {
    forall i | 0 < i < |h + [x]| ensures GoesOn((h + [x])[..i], len) {
      if i < |h| {
        assert (h + [x])[..i] == h[..i];
      } else {
        assert (h + [x])[..i] == h;
      }
    }
  }

  /** The results and the length decide when the loop ends: no whole loop continues another. */
  lemma LoopOnce(h: seq<int>, g: seq<int>, len: nat)
    requires Loop(h, len) && h <= g && |h| < |g|
    ensures !Loop(g, len)
  {
    assert g[..|h|] == h;
  }

  // ----- the loop of `send` -----

  /** What `send` promises: the return accounts for what was taken if and only if that is at most
      INT_MAX bytes, and is negative otherwise; with a scheduler, a first failure is tried again and
      a first answer of zero is returned. */
  ghost predicate Sent(r: int, h: seq<int>, len: nat, scheduled: bool)
  {
    && h != [] && r <= INT_MAX && r <= len && Taken(h) <= len
    && (Account(r, h) <==> Taken(h) <= INT_MAX)
    && (Taken(h) > INT_MAX ==> r < 0)
    && (if scheduled then
          && Loop(h, len)
          && (Taken(h) <= INT_MAX ==> Short(r, h, len) && (r <= 0 && len > 0 ==> h == [0] || (|h| == 2 && h[0] < 0)))
        else h == [r])
  }

  ghost predicate Sending(h: seq<int>, sent: int, ret: int, len: nat)
  {
    && h != [] && Last(h) == ret && ret != 0 && Taken(h) <= len && Taken(h) <= 2 * INT_MAX && Path(h, len)
    && sent == ToInt(Taken(h)) && (ret < 0 ==> |h| == 1 && sent == 0)
  }

  lemma SendFirst(ret: int, len: nat, scheduled: bool)
    requires ret <= len && ret <= INT_MAX
    ensures Taken([ret]) == if ret > 0 then ret else 0
    ensures scheduled && ret != 0 ==> Sending([ret], if ret > 0 then ret else 0, ret, len)
    ensures !scheduled || ret == 0 ==> Sent(ret, [ret], len, scheduled)
  {
    TakenOne([], ret);
    assert [] + [ret] == [ret];
  }

  lemma SendOn(h: seq<int>, sent: nat, ret: int, len: nat, ret': int)
    requires Sending(h, sent, ret, len) && sent < len && 0 < ret' <= len - sent && ret' <= INT_MAX
    ensures Sending(h + [ret'], ToInt(sent + ret'), ret', len)
  {
    TakenOne(h, ret');
    PathOn(h, len, ret');
  }

  lemma SendRefused(h: seq<int>, sent: nat, ret: int, len: nat, ret': int)
    requires Sending(h, sent, ret, len) && sent < len && ret' <= 0
    ensures Sent(if sent == 0 then ret' else sent, h + [ret'], len, true)
  {
    TakenOne(h, ret');
    PathOn(h, len, ret');
    if sent > 0 { assert !Refused(h + [ret']) by { if Refused(h + [ret']) { RefusedTaken(h + [ret']); } } }
  }

  lemma SendDone(h: seq<int>, sent: int, ret: int, len: nat)
    requires Sending(h, sent, ret, len) && ToSize(sent) >= len
    ensures Sent(if ret <= 0 && sent == 0 then ret else sent, h, len, true)
  {
    var r := if ret <= 0 && sent == 0 then ret else sent;
    if Account(r, h) { AccountFits(r, h); }
  }

  /** Hooked `send`. */
  method Send(k: Kernel, data: seq<byte>) returns (r: int, ghost h: seq<int>)
    requires |data| <= PTRDIFF_MAX
    modifies k
    ensures Sent(r, h, |data|, k.scheduled) && k.results == old(k.results) + h
    ensures k.accepted == old(k.accepted) + data[..Taken(h)]
    ensures k.waits == old(k.waits) + if k.scheduled then |h| - 1 else 0
    ensures k.Obliging() && data != [] ==> Taking(h)
  {
    ghost var was := k.accepted;
    var sent: int := 0;
    var ret := k.Transfer(data);
    h := [ret];
    SendFirst(ret, |data|, k.scheduled);
    if !k.scheduled || ret == 0 { return ret, h; }
    if ret > 0 { sent := sent + ret; }
    while ToSize(sent) < |data|
      invariant Sending(h, sent, ret, |data|)
      invariant k.results == old(k.results) + h && k.waits == old(k.waits) + |h| - 1
      invariant k.accepted == was + data[..Taken(h)]
      invariant k.Obliging() && data != [] ==> Taking(h)
      decreases |data| - Taken(h)
    {
      ghost var ret0, h0 := ret, h;
      ret := WaitAndTransfer(k, data, sent, h, was);
      h := h + [ret];
      if ret <= 0 {
        SendRefused(h0, sent, ret0, |data|, ret);
        return if sent == 0 then ret else sent, h;
      }
      SendOn(h0, sent, ret0, |data|, ret);
      TakenOne(h0, ret);
      sent := ToInt(sent + ret);
    }
    SendDone(h, sent, ret, |data|);
    return if ret <= 0 && sent == 0 then ret else sent, h;
  }

  /** One pass of the loop, up to the test of the answer. */
  method WaitAndTransfer(k: Kernel, data: seq<byte>, sent: nat, ghost h: seq<int>, ghost was: seq<byte>) returns (ret: int)
    requires sent < |data| && k.scheduled && sent == Taken(h) && k.accepted == was + data[..sent]
    modifies k
    ensures ret <= |data| - sent && ret <= MAX_RW_COUNT
    ensures k.results == old(k.results) + [ret] && k.waits == old(k.waits) + 1
    ensures k.accepted == was + data[..Taken(h + [ret])]
    ensures k.Obliging() ==> ret > 0
  {
    k.Poll();
    ret := k.Transfer(data[sent..]);
    TakenOne(h, ret);
    if ret > 0 { Extend(was, data, sent, ret); }
  }

  lemma Extend(was: seq<byte>, data: seq<byte>, sent: nat, ret: nat)
    requires sent + ret <= |data|
    ensures was + data[..sent] + data[sent..][..ret] == was + data[..sent + ret]
  {
    assert data[..sent] + data[sent..][..ret] == data[..sent + ret];
  }

  // ----- the loop of nty_send over it -----

  /** What nty_send promises: as for `send`, and it gives up after a partial transfer only when the
      kernel refuses twice in a row.  A buffer of at most INT_MAX bytes is always accounted for, a
      longer one never if the kernel takes something at every call. */
  ghost predicate NtySent(r: int, h: seq<int>, len: nat, scheduled: bool)
  {
    && h != [] && r <= INT_MAX && (Account(r, h) <==> Taken(h) <= INT_MAX)
    && (len <= INT_MAX ==> Taken(h) <= INT_MAX) && (len > INT_MAX && Taking(h) ==> Taken(h) > INT_MAX)
    && (Taken(h) <= INT_MAX ==>
          && Taken(h) <= len && Short(r, h, len)
          && (scheduled && 0 < r < len ==> |h| >= 2 && h[|h| - 2] <= 0))
  }

  /** What the loop keeps as long as no more than INT_MAX bytes were taken. */
  ghost predicate Counted(sent: int, ret: int, h: seq<int>, len: nat, scheduled: bool)
  {
    && h != [] && sent == Taken(h) && (ret < 0 <==> sent == 0)
    && (sent == 0 ==> Refused(h) && ret == Last(h))
    && (sent > 0 && scheduled ==> (sent < len <==> Last(h) <= 0))
    && (sent > 0 && !scheduled ==> Last(h) > 0)
  }

  ghost predicate Progress(sent: int, ret: int, h: seq<int>, len: nat, scheduled: bool)
  {
    && h != [] && ret != 0 && sent <= INT_MAX && sent <= len
    && (Taken(h) <= INT_MAX ==> Counted(sent, ret, h, len, scheduled))
    && (len <= INT_MAX ==> Taken(h) <= INT_MAX)
  }

  lemma ProgressStart(ret: int, h: seq<int>, len: nat, scheduled: bool)
    requires Sent(ret, h, len, scheduled)
    ensures ret != 0 ==> Progress(if ret > 0 then ret else 0, ret, h, len, scheduled)
    ensures ret == 0 ==> NtySent(ret, h, len, scheduled)
  {
    if ret <= 0 && Refused(h) { RefusedTaken(h); }
    if len > INT_MAX && Taking(h) && scheduled { TooLong(ret, h, len); }
  }

  lemma ProgressOn(sent: nat, ret: int, h: seq<int>, len: nat, scheduled: bool, ret': int, g: seq<int>)
    requires Progress(sent, ret, h, len, scheduled) && sent < len && Sent(ret', g, len - sent, scheduled) && ret' > 0
    ensures Progress(ToInt(sent + ret'), ret', h + g, len, scheduled)
  {
    TakenMore(h, g);
  }

  lemma ProgressStop(sent: nat, ret: int, h: seq<int>, len: nat, scheduled: bool, ret': int, g: seq<int>)
    requires Progress(sent, ret, h, len, scheduled) && sent < len && Sent(ret', g, len - sent, scheduled) && ret' <= 0
    ensures NtySent(if sent == 0 then ret' else sent, h + g, len, scheduled)
    ensures Taken(h + g) <= INT_MAX ==> Taken(h + g) == sent == Taken(h)
  {
    TakenMore(h, g);
    if Refused(g) { RefusedTaken(g); }
    var r := if sent == 0 then ret' else sent;
    if Account(r, h + g) { AccountFits(r, h + g); }
    if len > INT_MAX && Taking(h + g) { TooLong(r, h + g, len); }
  }

  lemma ProgressEnd(sent: int, ret: int, h: seq<int>, len: nat, scheduled: bool)
    requires Progress(sent, ret, h, len, scheduled) && (0 <= sent ==> sent >= len)
    ensures NtySent(if ret <= 0 && sent == 0 then ret else sent, h, len, scheduled)
  {
    var r := if ret <= 0 && sent == 0 then ret else sent;
    if Account(r, h) { AccountFits(r, h); }
    if len > INT_MAX && Taking(h) { TooLong(r, h, len); }
  }

  // ----- the kernel's answers, call of `send` by call of `send` -----

  ghost function Flat(segs: seq<seq<int>>): seq<int> {
    if segs == [] then [] else Flat(segs[..|segs| - 1]) + segs[|segs| - 1]
  }

  /** `segs[i]` are the answers to the i-th call of `send`, which returned `rs[i]` and was given what
      was left by then. */
  ghost predicate Nested(rs: seq<int>, segs: seq<seq<int>>, len: nat, scheduled: bool) {
    |rs| == |segs| && forall i :: 0 <= i < |rs| ==> Taken(rs[..i]) <= len && Sent(rs[i], segs[i], len - Taken(rs[..i]), scheduled)
  }

  lemma NestOn(rs: seq<int>, segs: seq<seq<int>>, len: nat, scheduled: bool, r: int, g: seq<int>)
    requires Nested(rs, segs, len, scheduled) && Taken(rs) <= len && Sent(r, g, len - Taken(rs), scheduled)
    ensures Nested(rs + [r], segs + [g], len, scheduled) && Flat(segs + [g]) == Flat(segs) + g
  {
    var qs, ts := rs + [r], segs + [g];
    assert ts[..|segs|] == segs;
    forall i | 0 <= i < |qs| ensures Taken(qs[..i]) <= len && Sent(qs[i], ts[i], len - Taken(qs[..i]), scheduled) {
      if i < |rs| { assert qs[..i] == rs[..i]; } else { assert qs[..i] == rs; }
    }
  }

  /** When nty_send gives up with nothing sent: on an answer of zero to its first or second call to the
      kernel, or after two failures and one or two further refusals; without a scheduler, on zero or
      after one failure and one further refusal. */
  lemma GivesUp(r: int, h: seq<int>, rs: seq<int>, segs: seq<seq<int>>, len: nat, scheduled: bool)
    requires Sent(r, rs, len, true) && Nested(rs, segs, len, scheduled) && h == Flat(segs)
    requires 0 < len <= INT_MAX && r <= 0
    ensures scheduled ==> h == [0] || (|h| == 2 && h[0] < 0 && h[1] == 0) || (3 <= |h| <= 4 && h[0] < 0 && h[1] < 0 && (|h| == 4 ==> h[2] < 0))
    ensures !scheduled ==> h == [0] || (|h| == 2 && h[0] < 0)
  {
    FirstRefusal(r, rs, len, true);
    if |rs| == 1 {
      Alone(rs, segs, len, scheduled);
    } else {
      Pair(rs, segs, len, scheduled);
    }
  }

  lemma Alone(rs: seq<int>, segs: seq<seq<int>>, len: nat, scheduled: bool)
    requires rs == [0] && Nested(rs, segs, len, scheduled) && 0 < len <= INT_MAX
    ensures var h := Flat(segs); h == [0] || (scheduled && |h| == 2 && h[0] < 0 && h[1] == 0)
  {
    assert rs[..0] == [];
    FirstRefusal(rs[0], segs[0], len, scheduled);
    OneSegment(segs);
  }

  lemma Pair(rs: seq<int>, segs: seq<seq<int>>, len: nat, scheduled: bool)
    requires |rs| == 2 && rs[0] < 0 && rs[1] <= 0 && Nested(rs, segs, len, scheduled) && 0 < len <= INT_MAX
    ensures var h := Flat(segs);
            if scheduled then 3 <= |h| <= 4 && h[0] < 0 && h[1] < 0 && (|h| == 4 ==> h[2] < 0) else |h| == 2 && h[0] < 0
  {
    assert rs[..0] == [];
    FirstRefusal(rs[0], segs[0], len, scheduled);
    assert rs[..1] == [] + [rs[0]];
    TakenOne([], rs[0]);
    FirstRefusal(rs[1], segs[1], len, scheduled);
    TwoSegments(segs);
  }

  lemma FirstRefusal(r: int, g: seq<int>, len: nat, scheduled: bool)
    requires Sent(r, g, len, scheduled) && 0 < len <= INT_MAX && r <= 0
    ensures scheduled ==> (r == 0 && g == [0]) || (|g| == 2 && g[0] < 0 && g[1] == r)
    ensures !scheduled ==> g == [r]
  {
  }

  lemma OneSegment(segs: seq<seq<int>>)
    requires |segs| == 1
    ensures Flat(segs) == segs[0]
  {
    assert segs[..0] == [];
  }

  lemma TwoSegments(segs: seq<seq<int>>)
    requires |segs| == 2
    ensures Flat(segs) == segs[0] + segs[1]
  {
    OneSegment(segs[..1]);
  }

  /** What nty_send has in hand between two calls of `send`. */
  ghost predicate Going(sent: int, ret: int, h: seq<int>, rs: seq<int>, segs: seq<seq<int>>, len: nat, scheduled: bool) {
    && Progress(sent, ret, h, len, scheduled) && sent >= -INT_MAX - 1
    && Sending(rs, sent, ret, len) && Nested(rs, segs, len, scheduled) && h == Flat(segs)
  }

  /** What it returns with. */
  ghost predicate Ended(r: int, h: seq<int>, rs: seq<int>, segs: seq<seq<int>>, len: nat, scheduled: bool) {
    NtySent(r, h, len, scheduled) && Sent(r, rs, len, true) && Nested(rs, segs, len, scheduled) && h == Flat(segs)
  }

  lemma GoingFirst(ret: int, h: seq<int>, len: nat, scheduled: bool)
    requires Sent(ret, h, len, scheduled)
    ensures if ret == 0 then Ended(ret, h, [ret], [h], len, scheduled)
            else Going(if ret > 0 then ret else 0, ret, h, [ret], [h], len, scheduled)
  {
    NestFirst(ret, h, len, scheduled);
    SendFirst(ret, len, true);
    ProgressStart(ret, h, len, scheduled);
  }

  lemma NestFirst(ret: int, h: seq<int>, len: nat, scheduled: bool)
    requires Sent(ret, h, len, scheduled)
    ensures Nested([ret], [h], len, scheduled) && Flat([h]) == h
  {
    var rs, segs := [ret], [h];
    assert rs[..0] == [];
    forall i | 0 <= i < |rs| ensures Taken(rs[..i]) <= len && Sent(rs[i], segs[i], len - Taken(rs[..i]), scheduled) {
      assert rs[..i] == [] && Taken([]) == 0;
    }
    OneSegment(segs);
  }

  lemma GoingOn(sent: nat, ret: int, h: seq<int>, rs: seq<int>, segs: seq<seq<int>>, len: nat, scheduled: bool, ret': int, g: seq<int>)
    requires Going(sent, ret, h, rs, segs, len, scheduled) && sent < len && Sent(ret', g, len - sent, scheduled) && ret' > 0
    ensures sent + ret' < 0x1_0000_0000
    ensures Going(ToInt(sent + ret'), ret', h + g, rs + [ret'], segs + [g], len, scheduled)
  {
    NestOn(rs, segs, len, scheduled, ret', g);
    ProgressOn(sent, ret, h, len, scheduled, ret', g);
    SendOn(rs, sent, ret, len, ret');
  }

  lemma Shrinks(sent: nat, ret: nat, len: nat)
    requires sent < len && 0 < ret <= len - sent && sent + ret < 0x1_0000_0000
    ensures Measure(ToInt(sent + ret), len) < Measure(sent, len)
  {
  }

  lemma GoingStop(sent: nat, ret: int, h: seq<int>, rs: seq<int>, segs: seq<seq<int>>, len: nat, scheduled: bool, ret': int, g: seq<int>)
    requires Going(sent, ret, h, rs, segs, len, scheduled) && sent < len && Sent(ret', g, len - sent, scheduled) && ret' <= 0
    ensures Ended(if sent == 0 then ret' else sent, h + g, rs + [ret'], segs + [g], len, scheduled)
  {
    NestOn(rs, segs, len, scheduled, ret', g);
    ProgressStop(sent, ret, h, len, scheduled, ret', g);
    SendRefused(rs, sent, ret, len, ret');
  }

  lemma GoingCounts(sent: int, ret: int, h: seq<int>, rs: seq<int>, segs: seq<seq<int>>, len: nat, scheduled: bool)
    requires Going(sent, ret, h, rs, segs, len, scheduled)
    ensures Taken(h) <= INT_MAX ==> sent == Taken(h)
  {
  }

  lemma GoingDone(sent: int, ret: int, h: seq<int>, rs: seq<int>, segs: seq<seq<int>>, len: nat, scheduled: bool)
    requires Going(sent, ret, h, rs, segs, len, scheduled) && ToSize(sent) >= len
    ensures Ended(if ret <= 0 && sent == 0 then ret else sent, h, rs, segs, len, scheduled)
  {
    ProgressEnd(sent, ret, h, len, scheduled);
    SendDone(rs, sent, ret, len);
  }

  /** nty_send: the same loop once more, over the returns `rs` of `send`. */
  method NtySend(k: Kernel, data: seq<byte>)
    returns (r: int, ghost h: seq<int>, ghost rs: seq<int>, ghost segs: seq<seq<int>>)
    requires |data| <= PTRDIFF_MAX
    modifies k
    ensures Ended(r, h, rs, segs, |data|, k.scheduled) && k.results == old(k.results) + h
    ensures Delivered(k, old(k.accepted), data, h)
    ensures k.Obliging() && data != [] ==> Taking(h)
    // Between any two kernel calls there is one wait.
    ensures k.waits == old(k.waits) + if k.scheduled then |h| - 1 else 0
  {
    ghost var was, base := k.accepted, k.results;
    var sent: int := 0;
    var ret;
    ret, h := Send(k, data);
    rs, segs := [ret], [h];
    GoingFirst(ret, h, |data|, k.scheduled);
    if ret == 0 { return ret, h, rs, segs; }
    if ret > 0 { sent := sent + ret; }
    while ToSize(sent) < |data|
      invariant Going(sent, ret, h, rs, segs, |data|, k.scheduled)
      invariant k.results == base + h && Delivered(k, was, data, h)
      invariant k.waits == old(k.waits) + if k.scheduled then |h| - 1 else 0
      invariant k.Obliging() && data != [] ==> Taking(h)
      decreases Measure(sent, |data|)
    {
      ghost var g;
      ret, g := WaitAndSend(k, data, sent, ret, h, rs, segs, was, base);
      h, rs, segs := h + g, rs + [ret], segs + [g];
      if ret <= 0 {
        return if sent == 0 then ret else sent, h, rs, segs;
      }
      sent := ToInt(sent + ret);
    }
    GoingDone(sent, ret, h, rs, segs, |data|, k.scheduled);
    r := if ret <= 0 && sent == 0 then ret else sent;
  }

  /** The bytes that were taken are the first ones, each once, unless they are too many to count. */
  ghost predicate Delivered(k: Kernel, was: seq<byte>, data: seq<byte>, h: seq<int>)
    reads k
  {
    Taken(h) <= INT_MAX ==> Taken(h) <= |data| && k.accepted == was + data[..Taken(h)]
  }

  /** What is left to send, and nothing once the count has wrapped around. */
  function Measure(sent: int, len: nat): int { if sent < 0 || len < sent then 0 else 1 + len - sent }

  /** One pass of the loop, up to the test of the result. */
  method WaitAndSend(k: Kernel, data: seq<byte>, sent: nat, ghost ret: int, ghost h: seq<int>, ghost rs: seq<int>,
                     ghost segs: seq<seq<int>>, ghost was: seq<byte>, ghost base: seq<int>)
    returns (ret': int, ghost g: seq<int>)
    requires Going(sent, ret, h, rs, segs, |data|, k.scheduled) && sent < |data| <= PTRDIFF_MAX
    requires k.results == base + h && Delivered(k, was, data, h) && (k.Obliging() ==> Taking(h))
    modifies k
    ensures ret' > 0 ==> sent + ret' < 0x1_0000_0000
    ensures ret' > 0 ==> Going(ToInt(sent + ret'), ret', h + g, rs + [ret'], segs + [g], |data|, k.scheduled)
    ensures ret' > 0 ==> Measure(ToInt(sent + ret'), |data|) < Measure(sent, |data|)
    ensures ret' <= 0 ==> Ended(if sent == 0 then ret' else sent, h + g, rs + [ret'], segs + [g], |data|, k.scheduled)
    ensures k.results == base + (h + g) && Delivered(k, was, data, h + g)
    ensures k.waits == old(k.waits) + if k.scheduled then |g| else 0
    ensures k.Obliging() ==> Taking(h + g)
  {
    GoingCounts(sent, ret, h, rs, segs, |data|, k.scheduled);
    ret', g := SendRest(k, data, sent, h, was, base);
    if ret' > 0 {
      GoingOn(sent, ret, h, rs, segs, |data|, k.scheduled, ret', g);
      Shrinks(sent, ret', |data|);
    } else {
      GoingStop(sent, ret, h, rs, segs, |data|, k.scheduled, ret', g);
    }
  }

  method SendRest(k: Kernel, data: seq<byte>, sent: nat, ghost h: seq<int>, ghost was: seq<byte>, ghost base: seq<int>)
    returns (ret: int, ghost g: seq<int>)
    requires sent < |data| <= PTRDIFF_MAX && k.results == base + h
    requires Delivered(k, was, data, h) && (Taken(h) <= INT_MAX ==> sent == Taken(h)) && (k.Obliging() ==> Taking(h))
    modifies k
    ensures Sent(ret, g, |data| - sent, k.scheduled) && k.results == base + (h + g) && Delivered(k, was, data, h + g)
    ensures k.waits == old(k.waits) + if k.scheduled then |g| else 0
    ensures k.Obliging() ==> Taking(h + g)
  {
    k.Poll();
    ret, g := Send(k, data[sent..]);
    TakenMore(h, g);
    Extend(was, data, sent, Taken(g));
    assert base + h + g == base + (h + g);
  }
}
