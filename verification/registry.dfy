// One buffer per thread group id. Buffers never share storage.

module Registry {
  import opened Types
  import opened CircularBuffers

  function Pushed(h: Held, e: SyscallEvent): Held {
    Held(h.ppid, h.comm, h.startTime, h.size, h.history + [e])
  }

  class ProcessRegistry {
    var buffers: map<u32, CircularBuffer>

    /** What the buffer of each process stands for. */
    ghost var contents: map<u32, Held>

    /** All storage the registry reaches. */
    ghost var Repr: set<object>

    ghost predicate Valid()
      reads this, Repr
      ensures Valid() ==> this in Repr
    {
      && this in Repr
      && contents.Keys == buffers.Keys
      && (forall p :: p in buffers ==> Holds(p, buffers[p]))
      && (forall p, q :: p in buffers && q in buffers && p != q ==> buffers[p].events != buffers[q].events)
    }

    /** b is in order, owned by the registry, and stands for what p holds. */
    ghost predicate Holds(p: u32, b: CircularBuffer)
      reads this, Repr
    {
      && b in Repr && b.events in Repr
      && b.Valid() && b.pid == p
      && p in contents && b.Snapshot() == contents[p]
    }

    constructor ()
      ensures Valid() && buffers == map[] && contents == map[] && fresh(Repr)
    {
      buffers, contents := map[], map[];
      Repr := {this};
    }

    method GetOrCreate(pid: u32, ppid: u32, comm: Bytes, startTime: u64, size: nat)
      returns (buf: CircularBuffer)
      requires Valid() && size > 0
      modifies this
      ensures Valid() && fresh(Repr - old(Repr))
      ensures pid in buffers && buffers[pid] == buf && {buf as object, buf.events} <= Repr
      ensures buffers == old(buffers)[pid := buf]
      ensures contents == if pid in old(contents) then old(contents)
                          else old(contents)[pid := Held(ppid, comm, startTime, size, [])]
      ensures pid !in old(buffers) ==> fresh(buf) && fresh(buf.events)
    {
      hide CircularBuffer.Valid;
      if pid in buffers {
        buf := buffers[pid];
        assert Holds(pid, buf) && buffers == buffers[pid := buf];
        return;
      }
      buf := new CircularBuffer(pid, ppid, comm, startTime, size);
      Add(pid, buf);
    }

    /** Enter a buffer that shares nothing with the others. */
    method Add(pid: u32, buf: CircularBuffer)
      requires Valid() && pid !in buffers
      requires buf.Valid() && buf.pid == pid && buf !in Repr && buf.events !in Repr
      modifies this
      ensures Valid() && Repr == old(Repr) + {buf, buf.events}
      ensures buffers == old(buffers)[pid := buf] && contents == old(contents)[pid := buf.Snapshot()]
    {
      hide CircularBuffer.Valid, CircularBuffer.Snapshot;
      buffers := buffers[pid := buf];
      contents := contents[pid := buf.Snapshot()];
      Repr := Repr + {buf, buf.events};
      forall p | p in buffers ensures Holds(p, buffers[p]) {
        if p != pid { assert old(Holds(p, buffers[p])); }
      }
    }

    method Get(pid: u32) returns (buf: Option<CircularBuffer>)
      requires Valid()
      ensures buf == if pid in buffers then Some(buffers[pid]) else None
      ensures match buf
        case None => pid !in contents
        case Some(b) => b.Valid() && pid in contents && b.Snapshot() == contents[pid]
    {
      hide CircularBuffer.Valid;
      if pid in buffers {
        buf := Some(buffers[pid]);
      } else {
        buf := None;
      }
    }

    method Delete(pid: u32)
      requires Valid()
      modifies `buffers, `contents
      ensures Valid() && Repr == old(Repr)
      ensures buffers == old(buffers) - {pid} && contents == old(contents) - {pid}
    {
      hide CircularBuffer.Valid;
      buffers := buffers - {pid};
      contents := contents - {pid};
    }

    /** A push into one process's buffer leaves what every other process holds alone. */
    method PushTo(pid: u32, e: SyscallEvent)
      requires Valid() && pid in buffers
      modifies this`contents, buffers[pid], buffers[pid].events
      ensures Valid() && buffers == old(buffers) && Repr == old(Repr)
      ensures contents == old(contents)[pid := Pushed(old(contents)[pid], e)]
    {
      hide CircularBuffer.Valid;
      var buf := buffers[pid];
      assert Holds(pid, buf);
      buf.Push(e);
      contents := contents[pid := buf.Snapshot()];
      forall p | p in buffers ensures Holds(p, buffers[p]) {
        if p != pid {
          assert old(Holds(p, buffers[p]));
          assert unchanged(buffers[p]) && unchanged(buffers[p].events);
        }
      }
    }
  }
}
