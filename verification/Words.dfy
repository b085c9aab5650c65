/** Tracee memory and the 8-byte words that PTRACE_PEEKTEXT and PTRACE_POKETEXT move. */
module Words {
  type byte = x: int | 0 <= x < 256
  type Memory = map<int, byte>

  /** The one-byte trap instruction that a breakpoint puts in place of an opcode. */
  const INT3: byte := 0xCC

  const WORD_SIZE: nat := 8

  /** A word can be peeked or poked only when all of its eight bytes are mapped. */
  predicate Readable(m: Memory, a: int) {
    forall x :: a <= x < a + WORD_SIZE ==> x in m
  }

  /** The little-endian number held by the `n` bytes at `a`. */
  function Load(m: Memory, a: int, n: nat): (w: nat)
    requires forall x :: a <= x < a + n ==> x in m
    decreases n, a
  {
    if n == 0 then 0 else m[a] + 256 * Load(m, a + 1, n - 1)
  }

  function Store(m: Memory, a: int, w: nat, n: nat): Memory
    decreases n, w
  {
    if n == 0 then m else Store(m[a := w % 256], a + 1, w / 256, n - 1)
  }

  /** PTRACE_PEEKTEXT: the word at `a`, or -1 (all bits set) when the request fails. */
  function PeekText(m: Memory, a: int): nat {
    if Readable(m, a) then Load(m, a, WORD_SIZE) else 0xffff_ffff_ffff_ffff
  }

  /** PTRACE_POKETEXT: stores all eight bytes, or nothing when the request fails. */
  function PokeText(m: Memory, a: int, w: nat): Memory {
    if Readable(m, a) then Store(m, a, w, WORD_SIZE) else m
  }

  /** `(w & 0xffffffffffffff00) | b` on an unsigned 64-bit word. */
  function SetLow(w: nat, b: byte): nat {
    w - w % 256 + b
  }

  /** `memcpy(&b, &w, 1)`: the byte that lies first in memory. */
  function LowByte(w: nat): byte {
    w % 256
  }

  /** What a peek, mask and poke is meant to do: change one byte. */
  function Patch(m: Memory, a: int, b: byte): (r: Memory)
    ensures r.Keys == m.Keys
  {
    if Readable(m, a) then assert a in m; m[a := b] else m
  }

  lemma SameKeysSameReadable(m: Memory, n: Memory)
    requires m.Keys == n.Keys
    ensures forall a :: Readable(m, a) <==> Readable(n, a)
  {
    assert forall x :: x in m <==> x in m.Keys;
    assert forall x :: x in n <==> x in n.Keys;
  }

  /** The debugger's idiom for changing one byte of the tracee. */
  function PokeByte(m: Memory, a: int, b: byte): Memory {
    PokeText(m, a, SetLow(PeekText(m, a), b))
  }

  lemma {:induction false} StoreOfLoad(m: Memory, a: int, n: nat)
    requires forall x :: a <= x < a + n ==> x in m
    ensures Store(m, a, Load(m, a, n), n) == m
    decreases n
  {
    if n > 0 {
      assert m[a := m[a]] == m;
      StoreOfLoad(m, a + 1, n - 1);
    }
  }

  lemma {:induction false} StoreCommutes(m: Memory, x: int, b: byte, a: int, w: nat, n: nat)
    requires x < a
    ensures Store(m[x := b], a, w, n) == Store(m, a, w, n)[x := b]
    decreases n
  {
    if n > 0 {
      assert m[x := b][a := w % 256] == m[a := w % 256][x := b];
      StoreCommutes(m[a := w % 256], x, b, a + 1, w / 256, n - 1);
    }
  }

  lemma StoreLowByte(m: Memory, a: int, b: byte, n: nat)
    requires n > 0 && forall x :: a <= x < a + n ==> x in m
    ensures Store(m, a, SetLow(Load(m, a, n), b), n) == m[a := b]
  {
    var rest := Load(m, a + 1, n - 1);
    assert SetLow(Load(m, a, n), b) == b + 256 * rest;
    StoreCommutes(m, a, b, a + 1, rest, n - 1);
    StoreOfLoad(m, a + 1, n - 1);
  }

  lemma LoadAfterPatch(m: Memory, a: int, b: byte, n: nat)
    requires n > 0 && forall x :: a <= x < a + n ==> x in m
    ensures Load(m[a := b], a, n) == SetLow(Load(m, a, n), b)
  {
    LoadElsewhere(m, a, b, a + 1, n - 1);
  }

  lemma {:induction false} LoadElsewhere(m: Memory, x: int, b: byte, a: int, n: nat)
    requires x < a && forall y :: a <= y < a + n ==> y in m
    ensures Load(m[x := b], a, n) == Load(m, a, n)
    decreases n
  {
    if n > 0 {
      LoadElsewhere(m, x, b, a + 1, n - 1);
    }
  }

  /** Peek, mask and poke changes exactly the addressed byte, although it rewrites eight. */
  lemma PokeIsPatch(m: Memory, a: int, b: byte)
    ensures PokeByte(m, a, b) == Patch(m, a, b)
  {
    if Readable(m, a) {
      var n: nat := WORD_SIZE;
      StoreLowByte(m, a, b, n);
    }
  }

  /** A later poke may reuse the word the first one wrote, as the re-arming write does. */
  lemma PokeAgainIsPatch(m: Memory, a: int, b: byte, c: byte)
    ensures PokeText(Patch(m, a, b), a, SetLow(SetLow(PeekText(m, a), b), c)) == Patch(Patch(m, a, b), a, c)
  {
    if Readable(m, a) {
      var n: nat := WORD_SIZE;
      LoadAfterPatch(m, a, b, n);
      assert SetLow(PeekText(m, a), b) == PeekText(m[a := b], a);
    }
    PokeIsPatch(Patch(m, a, b), a, c);
  }

  /** The byte saved from a peek is the addressed byte; a failed peek yields 0xFF. */
  lemma SavedByteOfPeek(m: Memory, a: int)
    ensures LowByte(PeekText(m, a)) == if Readable(m, a) then m[a] else 0xFF
  {
    if Readable(m, a) {
      assert PeekText(m, a) == m[a] + 256 * Load(m, a + 1, 7);
    }
  }

  /** The bytes of a word as `memcpy` lays them out. */
  function BytesOf(w: nat, n: nat): (r: seq<byte>)
    ensures |r| == n
    decreases n, w
  {
    if n == 0 then [] else [w % 256] + BytesOf(w / 256, n - 1)
  }

  lemma {:induction false} BytesOfLoad(m: Memory, a: int, n: nat, j: nat)
    requires (forall x :: a <= x < a + n ==> x in m) && j < n
    ensures BytesOf(Load(m, a, n), n)[j] == m[a + j]
    decreases n
  {
    if j > 0 {
      BytesOfLoad(m, a + 1, n - 1, j - 1);
    }
  }

  lemma BytesOfPeek(m: Memory, a: int)
    requires Readable(m, a)
    ensures forall j: nat :: j < WORD_SIZE ==> BytesOf(PeekText(m, a), WORD_SIZE)[j] == m[a + j]
  {
    var n: nat := WORD_SIZE;
    forall j: nat | j < n
      ensures BytesOf(Load(m, a, n), n)[j] == m[a + j]
    {
      BytesOfLoad(m, a, n, j);
    }
  }

  /** The number of values that `n` bytes can hold. */
  function Capacity(n: nat): (c: nat)
    ensures c > 0
  {
    if n == 0 then 1 else 256 * Capacity(n - 1)
  }

  lemma {:induction false} LoadBound(m: Memory, a: int, n: nat)
    requires forall x :: a <= x < a + n ==> x in m
    ensures Load(m, a, n) < Capacity(n)
    decreases n
  {
    if n > 0 {
      LoadBound(m, a + 1, n - 1);
    }
  }

  lemma {:induction false} LoadCongruent(m: Memory, k: Memory, a: int, n: nat)
    requires forall x :: a <= x < a + n ==> x in m && x in k && m[x] == k[x]
    ensures Load(m, a, n) == Load(k, a, n)
    decreases n
  {
    if n > 0 {
      LoadCongruent(m, k, a + 1, n - 1);
    }
  }

  lemma {:induction false} StoreFrame(m: Memory, a: int, w: nat, n: nat)
    requires forall x :: a <= x < a + n ==> x in m
    ensures Store(m, a, w, n).Keys == m.Keys
    ensures forall x :: x in m && !(a <= x < a + n) ==> Store(m, a, w, n)[x] == m[x]
    decreases n
  {
    if n > 0 {
      StoreFrame(m[a := w % 256], a + 1, w / 256, n - 1);
    }
  }

  lemma {:induction false} LoadOfStore(m: Memory, a: int, w: nat, n: nat)
    requires (forall x :: a <= x < a + n ==> x in m) && w < Capacity(n)
    ensures forall x :: a <= x < a + n ==> x in Store(m, a, w, n)
    ensures Load(Store(m, a, w, n), a, n) == w
    decreases n
  {
    StoreFrame(m, a, w, n);
    if n > 0 {
      var next := m[a := w % 256];
      LoadOfStore(next, a + 1, w / 256, n - 1);
      StoreFrame(next, a + 1, w / 256, n - 1);
    }
  }
}
