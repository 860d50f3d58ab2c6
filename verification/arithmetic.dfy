// Facts about positions in a ring that the solver does not find by itself.

module Arithmetic {

  /** Where position n of an endless sequence sits in a ring of `size` slots. */
  function Slot(n: nat, size: nat): (r: nat)
    requires size > 0
    ensures r < size
  {
    n % size
  }

  lemma Multiples(d: int, size: nat)
    ensures d >= 1 ==> d * size >= size
    ensures d <= 0 ==> d * size <= 0
    ensures d <= -1 ==> d * size + size <= 0
  {
  }

  lemma Distribute(a: int, b: int, size: int)
    ensures (a + b) * size == a * size + b * size
  {
  }

  lemma Apart(a: int, b: int, size: nat)
    ensures a > b ==> a * size >= b * size + size
    ensures a == b ==> a * size == b * size
  {
    var d := a - b;
    assert a == d + b;
    Distribute(d, b, size);
    Multiples(d, size);
  }

  /** The turns of the ring that n has behind it. */
  lemma Turns(n: nat, size: nat) returns (q: nat)
    requires size > 0
    ensures n == q * size + Slot(n, size)
  {
    q := n / size;
  }

  lemma ModUnique(n: int, q: int, r: int, size: nat)
    requires size > 0 && 0 <= r < size && n == q * size + r
    ensures n % size == r
  {
    var d := n / size - q;
    assert n == (n / size) * size + n % size;
    Distribute(d, q, size);
    Multiples(d, size);
  }

  lemma SlotUnique(n: nat, q: int, r: nat, size: nat)
    requires r < size && n == q * size + r
    ensures Slot(n, size) == r
  {
    ModUnique(n, q, r, size);
  }

  lemma SlotOfSmall(n: nat, size: nat)
    requires n < size
    ensures Slot(n, size) == n
  {
    SlotUnique(n, 0, n, size);
  }

  lemma NextInTurn(n: nat, size: nat)
    requires n < size
    ensures Slot(n + 1, size) == if n + 1 == size then 0 else n + 1
  {
    SlotUnique(n + 1, if n + 1 == size then 1 else 0, if n + 1 == size then 0 else n + 1, size);
  }

  lemma NextSlot(n: nat, size: nat)
    requires size > 0
    ensures Slot(Slot(n, size) + 1, size) == Slot(n + 1, size)
  {
    hide Slot;
    var q := Turns(n, size);
    var r := Slot(n, size);
    if r + 1 == size {
      Distribute(q, 1, size);
      SlotUnique(n + 1, q + 1, 0, size);
      SlotUnique(size, 1, 0, size);
    } else {
      SlotUnique(n + 1, q, r + 1, size);
      SlotOfSmall(r + 1, size);
    }
  }

  /** Two positions less than one turn apart never share a slot. */
  lemma SlotsDiffer(i: nat, n: nat, size: nat)
    requires size > 0 && n - size < i < n
    ensures Slot(i, size) != Slot(n, size)
  {
    hide Slot;
    var a := Turns(n, size);
    var b := Turns(i, size);
    Apart(a, b, size);
    Apart(b, a, size);
  }

  /** The drain's modular arithmetic reaches the slot of history position n - c + i. */
  lemma DrainSlot(n: nat, c: nat, i: nat, size: nat)
    requires size > 0 && c <= size && c <= n
    ensures Slot(Slot(Slot(n, size) - c + size, size) + i, size) == Slot(n - c + i, size)
  {
    hide Slot;
    var start := Slot(Slot(n, size) - c + size, size);
    var a := Turns(n, size);
    var b := Turns(Slot(n, size) - c + size, size);
    var t := Turns(start + i, size);
    Distribute(a, b, size);
    Distribute(a + b, t, size);
    Distribute(a + b + t, -1, size);
    SlotUnique(n - c + i, a + b + t - 1, Slot(start + i, size), size);
  }
}
