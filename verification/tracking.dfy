// Which processes are tracked: the kernel compares 16-byte keys, user space compares
// names. Both are filled from the same configured list.

module Tracking {
  import opened Types
  import opened Trace

  predicate NulFree(name: Bytes) {
    0 !in name
  }

  /** copy(key[:], v) into a zeroed [16]byte. */
  function KeyOf(name: Bytes): Comm {
    if |name| >= COMM_LEN then name[..COMM_LEN] else name + Zeros(COMM_LEN - |name|)
  }

  function Zeros(n: nat): (z: Bytes)
    ensures |z| == n && forall i :: 0 <= i < n ==> z[i] == 0
  {
    if n == 0 then [] else Zeros(n - 1) + [0]
  }

  function KeysOf(names: seq<Bytes>): set<Comm> {
    set n | n in names :: KeyOf(n)
  }

  /** Put every name's key into a map of bounded size; false when one does not fit. */
  method PutAll(names: seq<Bytes>, max: nat) returns (keys: set<Comm>, ok: bool)
    ensures ok <==> |KeysOf(names)| <= max
    ensures ok ==> keys == KeysOf(names)
  {
    keys := {};
    for i := 0 to |names|
      invariant keys == KeysOf(names[..i]) && |keys| <= max
    {
      var key := KeyOf(names[i]);
      assert KeysOf(names[..i + 1]) == keys + {key};
      if key !in keys && |keys| == max {
        assert keys + {key} <= KeysOf(names);
        FitsIn(keys + {key}, KeysOf(names));
        return keys, false;
      }
      keys := keys + {key};
    }
    assert names[..|names|] == names;
    return keys, true;
  }

  lemma FitsIn(a: set<Comm>, b: set<Comm>)
    requires a <= b
    ensures |a| <= |b|
  {
    assert b == a + (b - a);
  }

  /** Fill both kernel maps; fails exactly when a list has more distinct keys than its
      map has room for. */
  method LoadConfig(tracked: seq<Bytes>, ignored: seq<Bytes>) returns (cfg: Option<Config>)
    ensures cfg.Some? <==> |KeysOf(tracked)| <= 1024 && |KeysOf(ignored)| <= 256
    ensures cfg.Some? ==> cfg.value == Config(KeysOf(tracked), KeysOf(ignored))
  {
    var allowed, ok := PutAll(tracked, 1024);
    if !ok {
      return None;
    }
    var ignore, ok' := PutAll(ignored, 256);
    if !ok' {
      return None;
    }
    return Some(Config(allowed, ignore));
  }

  lemma {:induction false} TrimPadded(name: Bytes, k: nat)
    requires NulFree(name)
    ensures TrimZeros(name + Zeros(k)) == name
  {
    if k == 0 {
      assert name + Zeros(0) == name;
      if name != [] { assert name[|name| - 1] in name; }
    } else {
      TrimPadded(name, k - 1);
      assert name + Zeros(k) == (name + Zeros(k - 1)) + [0];
      assert (name + Zeros(k))[..|name| + k - 1] == name + Zeros(k - 1);
    }
  }

  lemma {:induction false} PaddedTrim(b: Bytes)
    ensures |TrimZeros(b)| <= |b| && b == TrimZeros(b) + Zeros(|b| - |TrimZeros(b)|)
    ensures TrimZeros(b) != [] ==> TrimZeros(b)[|TrimZeros(b)| - 1] != 0
  {
    if b != [] && b[|b| - 1] == 0 {
      PaddedTrim(b[..|b| - 1]);
      assert b == b[..|b| - 1] + [0];
    }
  }

  /** A name's key is exactly a given comm if the comm is the name padded, or if the name
      is longer than the key and the comm fills it. */
  lemma KeyIff(name: Bytes, comm: Comm)
    requires NulFree(name)
    ensures KeyOf(name) == comm <==>
      TrimZeros(comm) == name || (|name| > COMM_LEN && comm == name[..COMM_LEN])
  {
    PaddedTrim(comm);
    if |name| <= COMM_LEN {
      TrimPadded(name, COMM_LEN - |name|);
      assert KeyOf(name) == name + Zeros(COMM_LEN - |name|);
    }
  }

  /** For any list of NUL-free names and any 16 bytes: the kernel's lookup and user space's
      differ only on an unterminated comm that is the front of a longer name. */
  lemma LookupsAgree(names: seq<Bytes>, comm: Comm)
    requires forall n :: n in names ==> NulFree(n)
    ensures comm in KeysOf(names) <==>
      TrimZeros(comm) in names || exists n :: n in names && |n| > COMM_LEN && comm == n[..COMM_LEN]
  {
    forall n | n in names
      ensures KeyOf(n) == comm <==> TrimZeros(comm) == n || (|n| > COMM_LEN && comm == n[..COMM_LEN])
    {
      KeyIff(n, comm);
    }
    if comm in KeysOf(names) {
      var n :| n in names && KeyOf(n) == comm;
    }
    if TrimZeros(comm) in names {
      assert KeyOf(TrimZeros(comm)) == comm;
    }
  }

  /** On every terminated comm the kernel map hits exactly when user space tracks the
      trimmed name. */
  lemma TrackingAgrees(names: seq<Bytes>, comm: Comm)
    requires forall n :: n in names ==> NulFree(n)
    requires comm[COMM_LEN - 1] == 0
    ensures comm in KeysOf(names) <==> TrimZeros(comm) in names
  {
    LookupsAgree(names, comm);
    forall n | n in names && |n| > COMM_LEN ensures comm != n[..COMM_LEN] {
      assert n[COMM_LEN - 1] in n;
    }
  }

  /** A configured name of more than 15 bytes matches no terminated comm on either side:
      it is not cut down to the 15 bytes the kernel shows. */
  lemma LongNamesNeverMatch(name: Bytes, comm: Comm)
    requires NulFree(name) && |name| >= COMM_LEN && comm[COMM_LEN - 1] == 0
    ensures KeyOf(name) != comm && TrimZeros(comm) != name
  {
    assert name[COMM_LEN - 1] in name;
    PaddedTrim(comm);
  }
}
