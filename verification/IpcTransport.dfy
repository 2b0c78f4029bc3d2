/**
 The transfer loops under the IPC channels. A schedule says how the transport will answer each
 read or write; the loops must move the bytes in order however it splits them.
 */
module IpcTransport {
  import opened Basics

  // One answer of the transport: up to count bytes moved (0 when the peer is gone), a caught
  // signal, or an error or timeout.
  datatype Status = Moved(count: nat) | Interrupted | Failed

  datatype Progress = Progress(moved: nat, ok: bool, rest: seq<Status>)

  // What one read or write of up to n bytes returns. Nothing is answered once the schedule is
  // used up.
  function Answer(sched: seq<Status>, n: nat, available: nat): (a: Status)
    ensures a.Interrupted? || (a.Moved? && a.count > 0) ==> sched != []
    ensures a.Moved? ==> a.count <= n && a.count <= available
  {
    if sched == [] then Failed
    else if sched[0].Moved? then Moved(Min(sched[0].count, Min(n, available)))
    else sched[0]
  }

  function Later(sched: seq<Status>): seq<Status> {
    if sched == [] then [] else sched[1..]
  }

  // A transfer of n bytes of which only so many are available.
  function Transfer(sched: seq<Status>, n: nat, available: nat, everything: bool): (p: Progress)
    ensures p.moved <= n && p.moved <= available
    decreases |sched|
  {
    if n == 0 then Progress(0, true, sched) else
      match Answer(sched, n, available)
      case Failed => Progress(0, false, Later(sched))
      case Interrupted => Transfer(Later(sched), n, available, everything)
      case Moved(m) =>
        if m == 0 then Progress(0, false, Later(sched))
        else if !everything then Progress(m, true, Later(sched))
        else
          var p := Transfer(Later(sched), n - m, available - m, true);
          Progress(m + p.moved, p.ok, p.rest)
  }

  // The bytes a schedule can move before it breaks off.
  function Capacity(sched: seq<Status>): nat
    decreases |sched|
  {
    if sched == [] || sched[0].Failed? || sched[0] == Moved(0) then 0
    else (if sched[0].Moved? then sched[0].count else 0) + Capacity(sched[1..])
  }

  /** A full transfer moves as many bytes as are there and the schedule carries, up to n, and succeeds
      exactly when those are all n. */
  lemma {:induction false} TransferExactly(sched: seq<Status>, n: nat, available: nat)
    ensures var p := Transfer(sched, n, available, true);
      (p.ok <==> n <= available && n <= Capacity(sched)) && (p.ok ==> p.moved == n)
      && p.moved == Min(n, Min(available, Capacity(sched)))
      && (p.ok && n > 0 ==> |p.rest| < |sched|)
    decreases |sched|
  {
    if n > 0 && sched != [] && !sched[0].Failed? {
      if sched[0].Interrupted? {
        TransferExactly(sched[1..], n, available);
      } else {
        var m := Min(sched[0].count, Min(n, available));
        TransferExactly(sched[1..], n - m, available - m);
      }
    }
  }

  // A partial read returns as soon as anything is there.
  lemma {:induction false} PartialExactly(sched: seq<Status>, n: nat, available: nat)
    requires n > 0
    ensures var p := Transfer(sched, n, available, false);
      (p.ok <==> available > 0 && Capacity(sched) > 0) && (p.ok <==> p.moved > 0)
    decreases |sched|
  {
    if sched != [] && sched[0].Interrupted? {
      PartialExactly(sched[1..], n, available);
    }
  }

  // A connection that stays up: every answer is a signal or at least one byte.
  predicate Up(sched: seq<Status>) {
    forall i | 0 <= i < |sched| :: sched[i] != Failed && sched[i] != Moved(0)
  }

  function Moves(sched: seq<Status>): nat
    decreases |sched|
  {
    if sched == [] then 0 else (if sched[0].Moved? then 1 else 0) + Moves(sched[1..])
  }

  // A live connection uses at most one answer per byte.
  lemma {:induction false} UpTransfers(sched: seq<Status>, n: nat, available: nat)
    requires Up(sched) && n <= available && n <= Moves(sched)
    ensures var p := Transfer(sched, n, available, true);
      p.ok && p.moved == n && Up(p.rest) && Moves(p.rest) + n >= Moves(sched)
    decreases |sched|
  {
    if n > 0 {
      if sched[0].Interrupted? {
        UpTransfers(sched[1..], n, available);
      } else {
        var m := Min(sched[0].count, Min(n, available));
        UpTransfers(sched[1..], n - m, available - m);
      }
    }
  }

  // p is done up to k, with q still ahead.
  ghost predicate Ahead(p: Progress, k: nat, q: Progress) {
    p == Progress(k + q.moved, q.ok, q.rest)
  }

  lemma AheadBroken(p: Progress, k: nat, sched: seq<Status>, n: nat, available: nat, everything: bool)
    requires n > 0 && Ahead(p, k, Transfer(sched, n, available, everything))
    requires Answer(sched, n, available) == Failed || Answer(sched, n, available) == Moved(0)
    ensures p == Progress(k, false, Later(sched))
  {
  }

  lemma AheadSignalled(p: Progress, k: nat, sched: seq<Status>, n: nat, available: nat, everything: bool)
    requires n > 0 && Ahead(p, k, Transfer(sched, n, available, everything))
    requires Answer(sched, n, available) == Interrupted
    ensures |Later(sched)| < |sched| && Ahead(p, k, Transfer(Later(sched), n, available, everything))
  {
  }

  lemma AheadMoved(p: Progress, k: nat, sched: seq<Status>, n: nat, available: nat, everything: bool, m: nat)
    requires n > 0 && Ahead(p, k, Transfer(sched, n, available, everything))
    requires m > 0 && Answer(sched, n, available) == Moved(m)
    ensures |Later(sched)| < |sched|
    ensures if everything then Ahead(p, k + m, Transfer(Later(sched), n - m, available - m, true))
            else p == Progress(k + m, true, Later(sched))
  {
  }

  lemma Start(p: Progress)
    ensures Ahead(p, 0, p)
  {
  }

  lemma Finished(p: Progress, k: nat, sched: seq<Status>, available: nat, everything: bool)
    requires Ahead(p, k, Transfer(sched, 0, available, everything))
    ensures p == Progress(k, true, sched)
  {
  }

  /** The writing side of a connection: what has been handed to the transport so far. */
  class WSocketChan {
    var sched: seq<Status>
    var stream: seq<byte>
    var bytesSent: nat

    constructor (sched: seq<Status>)
      ensures this.sched == sched && stream == [] && bytesSent == 0
    {
      this.sched, stream, bytesSent := sched, [], 0;
    }

    // The system's write.
    method Write(data: seq<byte>) returns (status: Status)
      modifies `sched, `stream
      ensures status == Answer(old(sched), |data|, |data|) && sched == Later(old(sched))
      ensures stream == old(stream) + (if status.Moved? then data[..status.count] else [])
    {
      status := Answer(sched, |data|, |data|);
      sched := Later(sched);
      if status.Moved? {
        stream := stream + data[..status.count];
      }
    }

    method SendBytes(data: seq<byte>) returns (result: int)
      modifies this
      ensures var p := Transfer(old(sched), |data|, |data|, true);
        sched == p.rest && stream == old(stream) + data[..p.moved]
        && result == (if p.ok then 0 else -1)
        && bytesSent == old(bytesSent) + (if p.ok then |data| else 0)
    {
      ghost var p := Transfer(sched, |data|, |data|, true);
      var totalWritten := 0;
      hide Transfer, Answer, Later, Ahead;
      Start(p);
      while totalWritten < |data|
        invariant 0 <= totalWritten <= |data|
        invariant bytesSent == old(bytesSent) && stream == old(stream) + data[..totalWritten]
        invariant Ahead(p, totalWritten, Transfer(sched, |data| - totalWritten, |data| - totalWritten, true))
        decreases |sched|
      {
        ghost var before := sched;
        var chunk := |data| - totalWritten;
        var status := Write(data[totalWritten..]);
        if status.Failed? || status == Moved(0) {
          AheadBroken(p, totalWritten, before, chunk, chunk, true);
          return -1;
        }
        if status.Interrupted? {
          AheadSignalled(p, totalWritten, before, chunk, chunk, true);
        } else {
          AheadMoved(p, totalWritten, before, chunk, chunk, true, status.count);
          SliceStep(data, totalWritten, status.count);
          totalWritten := totalWritten + status.count;
        }
      }
      Finished(p, totalWritten, sched, 0, true);
      bytesSent := bytesSent + totalWritten;
      return 0;
    }
  }

  /** The reading side: what has been sent and not yet taken from the transport. */
  class RSocketChan {
    var sched: seq<Status>
    var pending: seq<byte>
    var bytesReceived: nat

    constructor (sched: seq<Status>, pending: seq<byte>)
      ensures this.sched == sched && this.pending == pending && bytesReceived == 0
    {
      this.sched, this.pending, bytesReceived := sched, pending, 0;
    }

    ghost predicate Holds(ptr: array<byte>, was: seq<byte>, k: nat)
      reads `pending, ptr
    {
      Got(was, k, pending, ptr[..])
    }

    lemma NothingRead(ptr: array<byte>)
      ensures Holds(ptr, pending, 0)
    {
    }

    // The system's read into the caller's buffer; was is all that was pending when it was empty.
    method Read(ptr: array<byte>, at: nat, chunk: nat, ghost was: seq<byte>) returns (status: Status)
      requires at + chunk <= ptr.Length && Holds(ptr, was, at)
      modifies `sched, `pending, ptr
      ensures status == Answer(old(sched), chunk, |old(pending)|) && sched == Later(old(sched))
      ensures status.Moved? ==> status.count <= chunk
      ensures var m := if status.Moved? then status.count else 0;
        Holds(ptr, was, at + m) && |pending| == |old(pending)| - m
    {
      status := Answer(sched, chunk, |pending|);
      sched := Later(sched);
      hide Answer, Later;
      if status.Moved? {
        var m := status.count;
        forall i | 0 <= i < m {
          ptr[at + i] := pending[i];
        }
        GotMore(was, at, m, pending, old(ptr[..]), ptr[..]);
        hide Got;
        pending := pending[m..];
      }
    }

    method AcceptBytes(ptr: array<byte>, nbytes: nat, readEverything: bool) returns (result: int)
      requires nbytes <= ptr.Length
      modifies this, ptr
      ensures var p := Transfer(old(sched), nbytes, |old(pending)|, readEverything);
        sched == p.rest && Holds(ptr, old(pending), p.moved)
        && result == (if p.ok then p.moved else -1)
        && bytesReceived == old(bytesReceived) + (if p.ok then p.moved else 0)
    {
      hide Transfer;
      result := ReadUpTo(ptr, nbytes, readEverything);
      if result != -1 {
        bytesReceived := bytesReceived + result;
      }
    }

    // The loop of AcceptBytes: while not everything has been read, read again.
    method ReadUpTo(ptr: array<byte>, nbytes: nat, readEverything: bool) returns (result: int)
      requires nbytes <= ptr.Length
      modifies `sched, `pending, ptr
      ensures var p := Transfer(old(sched), nbytes, |old(pending)|, readEverything);
        sched == p.rest && Holds(ptr, old(pending), p.moved)
        && result == (if p.ok then p.moved else -1)
    {
      hide Transfer, Answer, Later, Ahead, Holds, Got;
      ghost var p := Transfer(sched, nbytes, |pending|, readEverything);
      ghost var was := pending;
      var totalRead := 0;
      Start(p);
      NothingRead(ptr);
      while totalRead < nbytes
        invariant 0 <= totalRead <= nbytes
        invariant Holds(ptr, was, totalRead)
        invariant Ahead(p, totalRead, Transfer(sched, nbytes - totalRead, |pending|, readEverything))
        decreases |sched|
      {
        ghost var before, available := sched, |pending|;
        var chunk := nbytes - totalRead;
        var status := Read(ptr, totalRead, chunk, was);
        if status.Failed? || status == Moved(0) {
          AheadBroken(p, totalRead, before, chunk, available, readEverything);
          return -1;
        }
        if status.Interrupted? {
          AheadSignalled(p, totalRead, before, chunk, available, readEverything);
        } else {
          AheadMoved(p, totalRead, before, chunk, available, readEverything, status.count);
          totalRead := totalRead + status.count;
          if !readEverything {
            return totalRead;
          }
        }
      }
      Finished(p, totalRead, sched, |pending|, readEverything);
      return totalRead;
    }
  }

  // The first k bytes of what was pending are in the buffer, and the rest still are pending.
  ghost predicate Got(was: seq<byte>, k: nat, pending: seq<byte>, buffer: seq<byte>) {
    k <= |was| && k <= |buffer| && pending == was[k..] && buffer[..k] == was[..k]
  }

  lemma GotMore(was: seq<byte>, k: nat, m: nat, pending: seq<byte>, before: seq<byte>, after: seq<byte>)
    requires Got(was, k, pending, before) && m <= |pending| && |after| == |before| && k + m <= |after|
    requires forall i | 0 <= i < k :: after[i] == before[i]
    requires forall i | 0 <= i < m :: after[k + i] == pending[i]
    ensures Got(was, k + m, pending[m..], after)
  {
    forall i | 0 <= i < k + m ensures after[i] == was[i] {
      if i < k {
        assert before[..k][i] == was[..k][i];
      } else {
        assert after[k + (i - k)] == pending[i - k];
      }
    }
  }

  lemma SliceStep(s: seq<byte>, at: nat, m: nat)
    requires at + m <= |s|
    ensures s[..at] + s[at..][..m] == s[..at + m]
  {
  }
}
