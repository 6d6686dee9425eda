/** Simulator memory as a value: ROM, RAM, and a trap page that every other address falls on;
    words and block operations over its cells. */
module Memory {
  import opened Words
  import opened Bits

  const PAGE_SIZE: nat := 8192
  const RAM_BASE: nat := 0xF000_0000
  const ROM_BASE: nat := 0x8000
  const RAM_SIZE: nat := PAGE_SIZE * 512
  const ROM_SIZE: nat := PAGE_SIZE * 16

  datatype Cell = Rom(at: nat) | Ram(at: nat) | Trap(at: nat)

  datatype Mem = Mem(rom: seq<byte>, ram: seq<byte>, trap: seq<byte>)

  predicate MemOk(m: Mem) {
    |m.rom| == ROM_SIZE && |m.ram| == RAM_SIZE && |m.trap| == PAGE_SIZE
  }

  predicate IsCell(c: Cell) {
    match c
    case Rom(i) => i < ROM_SIZE
    case Ram(i) => i < RAM_SIZE
    case Trap(i) => i < PAGE_SIZE
  }

  function Translate(a: u32): (c: Cell)
    ensures IsCell(c)
  {
    if ROM_BASE <= a < ROM_BASE + ROM_SIZE then Rom(a - ROM_BASE)
    else if RAM_BASE <= a < RAM_BASE + RAM_SIZE then Ram(a - RAM_BASE)
    else Trap(a % PAGE_SIZE)
  }

  function Load(m: Mem, c: Cell): byte
    requires MemOk(m) && IsCell(c)
  {
    match c
    case Rom(i) => m.rom[i]
    case Ram(i) => m.ram[i]
    case Trap(i) => m.trap[i]
  }

  function Store(m: Mem, c: Cell, v: byte): (m': Mem)
    requires MemOk(m) && IsCell(c)
    ensures MemOk(m')
    ensures forall d :: IsCell(d) ==> Load(m', d) == if d == c then v else Load(m, d)
  {
    match c
    case Rom(i) => m.(rom := m.rom[i := v])
    case Ram(i) => m.(ram := m.ram[i := v])
    case Trap(i) => m.(trap := m.trap[i := v])
  }

  // ---------- accessors ----------

  function Read8(m: Mem, a: u32): byte
    requires MemOk(m)
  {
    Load(m, Translate(a))
  }

  function Write8(m: Mem, a: u32, v: byte): (m': Mem)
    requires MemOk(m)
    ensures MemOk(m')
  {
    Store(m, Translate(a), v)
  }

  /** High byte first. */
  function Read16(m: Mem, a: u32): (v: nat)
    requires MemOk(m)
    ensures v < 0x1_0000
  {
    Read8(m, a) * 0x100 + Read8(m, Wrap(a + 1))
  }

  /** Low byte first. */
  function Write16(m: Mem, a: u32, v: nat): (m': Mem)
    requires MemOk(m) && v < 0x1_0000
    ensures MemOk(m')
  {
    Write8(Write8(m, a, v % 0x100), Wrap(a + 1), v / 0x100)
  }

  function Read32(m: Mem, a: u32): u32
    requires MemOk(m)
  {
    Read16(m, a) * 0x1_0000 + Read16(m, Wrap(a + 2))
  }

  function Write32(m: Mem, a: u32, v: u32): (m': Mem)
    requires MemOk(m)
    ensures MemOk(m')
  {
    Write16(Write16(m, a, v % 0x1_0000), Wrap(a + 2), v / 0x1_0000)
  }

  function BSwap(v: u32): u32 {
    (v / 0x100_0000) % 0x100 + (v / 0x1_0000) % 0x100 * 0x100 + (v / 0x100) % 0x100 * 0x1_0000
    + v % 0x100 * 0x100_0000
  }

  /** The `k`-th cell from address `a`, addresses wrapping around. */
  function CellAt(a: u32, k: nat): (c: Cell)
    ensures IsCell(c)
  {
    Translate(Wrap(a + k))
  }

  /** Region edges, aliasing and wrap-around included, no word overlaps itself. */
  lemma {:induction false} WordCellsDistinct(a: u32, i: nat, j: nat)
    requires i < j < 4
    ensures CellAt(a, i) != CellAt(a, j)
  {
    TrapOffset(a, i);
    TrapOffset(a, j);
  }

  lemma {:induction false} TrapOffset(a: u32, k: nat)
    requires k < 4
    ensures Wrap(a + k) % PAGE_SIZE == (a % PAGE_SIZE + k) % PAGE_SIZE
    ensures a % PAGE_SIZE + k < PAGE_SIZE ==> Wrap(a + k) % PAGE_SIZE == a % PAGE_SIZE + k
    ensures a % PAGE_SIZE + k >= PAGE_SIZE ==> Wrap(a + k) % PAGE_SIZE == a % PAGE_SIZE + k - PAGE_SIZE
  {
  }

  /** A stored word is loaded with its bytes in reverse order, and nothing else is disturbed. */
  lemma {:induction false} WordStoreLoad(m: Mem, a: u32, v: u32)
    requires MemOk(m)
    ensures Read32(Write32(m, a, v), a) == BSwap(v)
    ensures BSwap(Read32(Write32(m, a, v), a)) == v
    ensures forall c :: IsCell(c) && (forall k :: 0 <= k < 4 ==> c != CellAt(a, k))
              ==> Load(Write32(m, a, v), c) == Load(m, c)
  {
    hide BSwap, Translate, Load, Store;
    BytesOfWord(v);
    WordCellsDistinct(a, 0, 1);
    WordCellsDistinct(a, 0, 2);
    WordCellsDistinct(a, 0, 3);
    WordCellsDistinct(a, 1, 2);
    WordCellsDistinct(a, 1, 3);
    WordCellsDistinct(a, 2, 3);
    assert Wrap(Wrap(a + 2) + 1) == Wrap(a + 3) && Wrap(a + 0) == a;
    var lo, hi := v % 0x1_0000, v / 0x1_0000;
    var n := Write32(m, a, v);
    assert Load(n, CellAt(a, 0)) == lo % 0x100 && Load(n, CellAt(a, 1)) == lo / 0x100;
    assert Load(n, CellAt(a, 2)) == hi % 0x100 && Load(n, CellAt(a, 3)) == hi / 0x100;
  }

  lemma {:induction false} BytesOfWord(v: u32)
    ensures var lo, hi := v % 0x1_0000, v / 0x1_0000;
      BSwap(v) == (lo % 0x100 * 0x100 + lo / 0x100) * 0x1_0000 + (hi % 0x100 * 0x100 + hi / 0x100)
    ensures BSwap(BSwap(v)) == v
  {
    hide BSwap;
    var lo, hi := v % 0x1_0000, v / 0x1_0000;
    var b0, b1, b2, b3 := lo % 0x100, lo / 0x100, hi % 0x100, hi / 0x100;
    assert lo == b0 + b1 * 0x100 && hi == b2 + b3 * 0x100 && v == lo + hi * 0x1_0000;
    BSwapOfBytes(b0, b1, b2, b3);
    BSwapOfBytes(b3, b2, b1, b0);
  }

  lemma {:induction false} BSwapOfBytes(b0: byte, b1: byte, b2: byte, b3: byte)
    ensures BSwap(b0 + b1 * 0x100 + b2 * 0x1_0000 + b3 * 0x100_0000)
            == b3 + b2 * 0x100 + b1 * 0x1_0000 + b0 * 0x100_0000
  {
    var v := b0 + b1 * 0x100 + b2 * 0x1_0000 + b3 * 0x100_0000;
    assert v / 0x100 == b1 + b2 * 0x100 + b3 * 0x1_0000;
    assert v / 0x1_0000 == b2 + b3 * 0x100;
    assert v / 0x100_0000 % 0x100 == b3;
    assert v / 0x1_0000 % 0x100 == b2;
    assert v / 0x100 % 0x100 == b1;
    assert v % 0x100 == b0;
  }

  // ---------- block copies ----------

  /** `n` bytes copied one after the other, lowest first. */
  function CopyTo(m: Mem, dst: u32, src: u32, n: nat): (m': Mem)
    requires MemOk(m)
    ensures MemOk(m')
  {
    if n == 0 then m
    else
      var p := CopyTo(m, dst, src, n - 1);
      Store(p, CellAt(dst, n - 1), Load(p, CellAt(src, n - 1)))
  }

  /** The other loop of memmov: from `c` down to 1, `n` bytes copied so far. */
  function CopyDown(m: Mem, dst: u32, src: u32, c: nat, n: nat): (m': Mem)
    requires MemOk(m) && n <= c
    ensures MemOk(m')
  {
    if n == 0 then m
    else
      var p, k := CopyDown(m, dst, src, c, n - 1), c - (n - 1);
      Store(p, CellAt(dst, k), Load(p, CellAt(src, k)))
  }

  /** No byte is written before a later iteration reads it. */
  ghost predicate NoHazard(dst: u32, src: u32, n: nat) {
    forall i, j :: 0 <= i < j < n ==> CellAt(dst, i) != CellAt(src, j)
  }

  /** The last iteration to write cell `c`. */
  ghost function LastWriter(dst: u32, n: nat, c: Cell): (r: int)
    ensures -1 <= r < n
    ensures r >= 0 ==> CellAt(dst, r) == c
    ensures forall i :: r < i < n ==> CellAt(dst, i) != c
  {
    if n == 0 then -1 else if CellAt(dst, n - 1) == c then n - 1 else LastWriter(dst, n - 1, c)
  }

  /** Copying byte by byte is copying all at once: a written cell gets the byte its source held
      before the copy, any other cell stays, at any length and across wrap-around and aliasing. */
  lemma {:induction false} CopyIsSimultaneous(m: Mem, dst: u32, src: u32, n: nat, c: Cell)
    requires MemOk(m) && NoHazard(dst, src, n) && IsCell(c)
    ensures Load(CopyTo(m, dst, src, n), c)
            == var w := LastWriter(dst, n, c); if w < 0 then Load(m, c) else Load(m, CellAt(src, w))
    decreases n
  {
    hide Load, Store, Translate, CellAt;
    if n > 0 {
      CopyIsSimultaneous(m, dst, src, n - 1, c);
      CopyIsSimultaneous(m, dst, src, n - 1, CellAt(src, n - 1));
    }
  }

  /** The last offset among `c` down to `c - n + 1` whose destination is cell `x`; 0 for none. */
  ghost function DownWriter(dst: u32, c: nat, n: nat, x: Cell): (k: nat)
    requires n <= c
    ensures k == 0 || (c - n < k <= c && CellAt(dst, k) == x)
    ensures forall i :: c - n < i <= c && (k == 0 || i < k) ==> CellAt(dst, i) != x
  {
    if n == 0 then 0 else if CellAt(dst, c - (n - 1)) == x then c - (n - 1) else DownWriter(dst, c, n - 1, x)
  }

  /** The downward loop of memmov moves the bytes at offsets 1 to `c`, and not those at 0 to `c - 1`: a
      cell it writes gets the byte its source held before, any other cell stays, as long as it does
      not overwrite what it still has to read. */
  lemma {:induction false} CopyDownShifted(m: Mem, dst: u32, src: u32, c: nat, n: nat, x: Cell)
    requires MemOk(m) && n <= c && IsCell(x)
    requires forall i, j :: 1 <= j < i <= c ==> CellAt(dst, i) != CellAt(src, j)
    ensures Load(CopyDown(m, dst, src, c, n), x)
            == var k := DownWriter(dst, c, n, x); if k == 0 then Load(m, x) else Load(m, CellAt(src, k))
    decreases n
  {
    hide Load, Store, Translate, CellAt;
    if n > 0 {
      CopyDownShifted(m, dst, src, c, n - 1, x);
      CopyDownShifted(m, dst, src, c, n - 1, CellAt(src, c - (n - 1)));
    }
  }

  // ---------- what memmov promises ----------

  /** The loop memmov runs: upwards when the destination is above the source, else downwards. */
  function MoveTo(m: Mem, dst: u32, src: u32, n: nat): (m': Mem)
    requires MemOk(m)
    ensures MemOk(m')
  {
    if dst > src then CopyTo(m, dst, src, n) else CopyDown(m, dst, src, n, n)
  }

  /** `n` bytes are where they should be: each destination holds what its source held. */
  ghost predicate Moved(m: Mem, m': Mem, dst: u32, src: u32, n: nat)
    requires MemOk(m) && MemOk(m')
  {
    forall i :: 0 <= i < n ==> Load(m', CellAt(dst, i)) == Load(m, CellAt(src, i))
  }

  /** The `w` addresses after `a`, and `a`, are different cells. */
  ghost predicate Apart(a: u32, w: nat) {
    forall i, j :: 0 <= i < j <= w ==> CellAt(a, i) != CellAt(a, j)
  }

  /** Spans within RAM or within ROM are. */
  lemma {:induction false} RegionsApart(a: u32, w: nat)
    requires (RAM_BASE <= a && a + w <= RAM_BASE + RAM_SIZE) || (ROM_BASE <= a && a + w <= ROM_BASE + ROM_SIZE)
    ensures Apart(a, w)
  {
  }

  /** The last of the offsets `k`, `k + d`, and so on, up to `c`. */
  ghost function LastOf(c: nat, d: nat, k: nat): (l: nat)
    requires d > 0 && k <= c
    ensures k <= l <= c < l + d
    decreases c - k
  {
    if k + d > c then k else LastOf(c, d, k + d)
  }

  /** The downward loop after `n` rounds, source `d` above destination. */
  lemma {:induction false} DownValue(m: Mem, dst: u32, d: nat, c: nat, n: nat, x: nat)
    requires MemOk(m) && d > 0 && dst + d < TWO32 && n <= c && x <= c + d && Apart(dst, c + d)
    ensures Load(CopyDown(m, dst, dst + d, c, n), CellAt(dst, x))
            == if c - n < x <= c then Load(m, CellAt(dst + d, LastOf(c, d, x))) else Load(m, CellAt(dst, x))
    decreases n
  {
    hide Load, Store, CellAt;
    if n > 0 {
      var k := c - (n - 1);
      SameCell(dst, d, k);
      DownValue(m, dst, d, c, n - 1, k + d);
      DownValue(m, dst, d, c, n - 1, x);
      assert k < x ==> CellAt(dst, k) != CellAt(dst, x);
      assert x < k ==> CellAt(dst, x) != CellAt(dst, k);
    }
  }

  lemma {:induction false} SameCell(a: u32, d: nat, k: nat)
    requires a + d < TWO32
    ensures CellAt(a + d, k) == CellAt(a, k + d)
  {
  }

  /** The upward loop after `n` rounds, destination `d` above source. */
  lemma {:induction false} UpValue(m: Mem, src: u32, d: nat, c: nat, n: nat, x: nat)
    requires MemOk(m) && d > 0 && src + d < TWO32 && n <= c && x <= c + d && Apart(src, c + d)
    ensures Load(CopyTo(m, src + d, src, n), CellAt(src, x))
            == if d <= x < d + n then Load(m, CellAt(src, x % d)) else Load(m, CellAt(src, x))
    decreases n
  {
    hide Load, Store, CellAt;
    if n > 0 {
      var k := n - 1;
      SameCell(src, d, k);
      UpValue(m, src, d, c, n - 1, k);
      UpValue(m, src, d, c, n - 1, x);
      Remainder(k, d);
      assert k + d < x ==> CellAt(src, k + d) != CellAt(src, x);
      assert x < k + d ==> CellAt(src, x) != CellAt(src, k + d);
    }
  }

  lemma {:induction false} Remainder(k: nat, d: nat)
    requires d > 0
    ensures (k + d) % d == k % d && (k < d ==> k % d == k)
  {
    Quotient(k + d, d, k / d + 1, k % d);
    if k < d {
      Quotient(k, d, 0, k);
    }
  }

  /** What the blocks must hold for memmov to work: upwards, where it overwrites what it still has to
      read, the source must repeat at the distance; downwards too, but for its byte 0, which must
      be there already. */
  ghost predicate MoveFits(m: Mem, dst: u32, src: u32, n: nat)
    requires MemOk(m)
  {
    if dst > src then
      forall i :: dst - src <= i < n ==> Load(m, CellAt(src, i)) == Load(m, CellAt(src, i - (dst - src)))
    else
      n > 0 ==>
        && Load(m, CellAt(dst, 0)) == Load(m, CellAt(src, 0))
        && forall i :: 1 <= i && i + (src - dst) <= n ==>
             Load(m, CellAt(src, i)) == Load(m, CellAt(src, i + (src - dst)))
  }

  /** memmov moves the bytes exactly when the blocks fit so, on any blocks in whose span no cell comes
      twice; in RAM that is every pair of blocks. */
  lemma {:induction false} MovesExactly(m: Mem, dst: u32, src: u32, n: nat)
    requires MemOk(m) && Apart(if dst > src then src else dst, n + if dst > src then dst - src else src - dst)
    ensures Moved(m, MoveTo(m, dst, src, n), dst, src, n) <==> MoveFits(m, dst, src, n)
  {
    hide Load, CellAt, CopyTo, CopyDown, Apart;
    if dst > src {
      UpMovesExactly(m, src, dst - src, n);
    } else if dst < src {
      DownMovesExactly(m, dst, src - dst, n);
    } else {
      CopyOntoItself(m, dst, n, n);
    }
  }

  lemma {:induction false} CopyOntoItself(m: Mem, a: u32, c: nat, n: nat)
    requires MemOk(m) && n <= c
    ensures CopyDown(m, a, a, c, n) == m
    decreases n
  {
    hide CellAt;
    if n > 0 {
      CopyOntoItself(m, a, c, n - 1);
    }
  }

  lemma {:induction false} UpMovesExactly(m: Mem, src: u32, d: nat, n: nat)
    requires MemOk(m) && d > 0 && src + d < TWO32 && Apart(src, n + d)
    ensures Moved(m, CopyTo(m, src + d, src, n), src + d, src, n) <==> MoveFits(m, src + d, src, n)
  {
    hide Load, CellAt, CopyTo, Apart;
    var m' := CopyTo(m, src + d, src, n);
    forall i | 0 <= i < n
      ensures Load(m', CellAt(src + d, i)) == Load(m, CellAt(src, i % d))
    {
      SameCell(src, d, i);
      UpValue(m, src, d, n, n, i + d);
      Remainder(i, d);
    }
    if MoveFits(m, src + d, src, n) {
      forall i | 0 <= i < n
        ensures Load(m', CellAt(src + d, i)) == Load(m, CellAt(src, i))
      {
        Repeats(m, src, d, n, i);
      }
    }
    if Moved(m, m', src + d, src, n) {
      forall i | d <= i < n
        ensures Load(m, CellAt(src, i)) == Load(m, CellAt(src, i - d))
      {
        var j: nat := i - d;
        Remainder(j, d);
        assert i == j + d && i % d == j % d;
        assert Load(m, CellAt(src, i)) == Load(m', CellAt(src + d, i)) == Load(m, CellAt(src, i % d));
        assert Load(m, CellAt(src, j)) == Load(m', CellAt(src + d, j)) == Load(m, CellAt(src, j % d));
      }
    }
  }

  lemma {:induction false} Repeats(m: Mem, src: u32, d: nat, n: nat, i: nat)
    requires MemOk(m) && d > 0 && src + d < TWO32 && MoveFits(m, src + d, src, n) && i < n
    ensures Load(m, CellAt(src, i % d)) == Load(m, CellAt(src, i))
    decreases i
  {
    hide Load, CellAt;
    if i >= d {
      Remainder(i - d, d);
      Repeats(m, src, d, n, i - d);
    } else {
      Remainder(i, d);
    }
  }

  lemma {:induction false} DownMovesExactly(m: Mem, dst: u32, d: nat, n: nat)
    requires MemOk(m) && d > 0 && dst + d < TWO32 && Apart(dst, n + d)
    ensures Moved(m, CopyDown(m, dst, dst + d, n, n), dst, dst + d, n) <==> MoveFits(m, dst, dst + d, n)
    ensures n > 0 ==> Load(CopyDown(m, dst, dst + d, n, n), CellAt(dst, n)) == Load(m, CellAt(dst + d, n))
  {
    hide Load, CellAt, CopyDown, Apart;
    var src, m' := dst + d, CopyDown(m, dst, dst + d, n, n);
    forall i | 0 <= i <= n
      ensures Load(m', CellAt(dst, i)) == Load(m, if i == 0 then CellAt(dst, 0) else CellAt(src, LastOf(n, d, i)))
    {
      DownValue(m, dst, d, n, n, i);
    }
    if MoveFits(m, dst, src, n) {
      forall i | 0 <= i < n
        ensures Load(m', CellAt(dst, i)) == Load(m, CellAt(src, i))
      {
        if i > 0 {
          RepeatsUp(m, dst, d, n, i);
        }
      }
    }
    if Moved(m, m', dst, src, n) && n > 0 {
      assert Load(m', CellAt(dst, 0)) == Load(m, CellAt(src, 0));
      forall i | 1 <= i && i + d <= n
        ensures Load(m, CellAt(src, i)) == Load(m, CellAt(src, i + d))
      {
        assert Load(m', CellAt(dst, i)) == Load(m, CellAt(src, i));
        if i + d < n {
          assert Load(m', CellAt(dst, i + d)) == Load(m, CellAt(src, i + d));
        }
      }
    }
  }

  lemma {:induction false} RepeatsUp(m: Mem, dst: u32, d: nat, n: nat, i: nat)
    requires MemOk(m) && d > 0 && dst + d < TWO32 && MoveFits(m, dst, dst + d, n) && 1 <= i <= n
    ensures Load(m, CellAt(dst + d, LastOf(n, d, i))) == Load(m, CellAt(dst + d, i))
    decreases n - i
  {
    hide Load, CellAt;
    if i + d <= n {
      RepeatsUp(m, dst, d, n, i + d);
    }
  }

  /** Downwards it also overwrites the byte after the destination block. */
  lemma {:induction false} MoveWritesPast(m: Mem, dst: u32, src: u32, n: nat)
    requires MemOk(m) && dst < src && n > 0 && Apart(dst, n + src - dst)
    ensures Load(MoveTo(m, dst, src, n), CellAt(dst, n)) == Load(m, CellAt(src, n))
  {
    hide Load, CellAt, CopyTo, CopyDown, Apart;
    DownMovesExactly(m, dst, src - dst, n);
  }

  /** A memory of zeros but for a 1 in RAM at offset 16. */
  ghost function OneAt16(): (m: Mem)
    ensures MemOk(m)
  {
    Mem(seq(ROM_SIZE, i => 0), seq(RAM_SIZE, i => if i == 16 then 1 else 0), seq(PAGE_SIZE, i => 0))
  }

  /** There, memmov of one byte from offset 16 to offset 0 moves nothing. */
  lemma {:induction false} MoveFails()
    ensures var m, m' := OneAt16(), MoveTo(OneAt16(), RAM_BASE, RAM_BASE + 16, 1);
      Load(m, CellAt(RAM_BASE + 16, 0)) == 1 && Load(m', CellAt(RAM_BASE, 0)) == 0
  {
    hide CopyDown;
    RegionsApart(RAM_BASE, 17);
    DownValue(OneAt16(), RAM_BASE, 16, 1, 1, 0);
  }

  /** Within RAM the copy is safe exactly when the destination does not start inside the source. */
  lemma {:induction false} HazardInRam(dst: u32, src: u32, n: nat)
    requires RAM_BASE <= dst && dst + n <= RAM_BASE + RAM_SIZE
    requires RAM_BASE <= src && src + n <= RAM_BASE + RAM_SIZE
    ensures NoHazard(dst, src, n) <==> dst <= src || src + n <= dst
  {
    forall k | 0 <= k < n
      ensures CellAt(dst, k) == Ram(dst + k - RAM_BASE) && CellAt(src, k) == Ram(src + k - RAM_BASE)
    {
    }
    if src < dst < src + n {
      assert CellAt(dst, 0) == CellAt(src, dst - src);
    }
  }

  /** The string at `src` has its first NUL at distance `d`. */
  ghost predicate NulAt(m: Mem, src: u32, d: nat)
    requires MemOk(m)
  {
    Load(m, CellAt(src, d)) == 0 && forall k :: 0 <= k < d ==> Load(m, CellAt(src, k)) != 0
  }

  /** While nothing is overwritten ahead of the copy, the bytes still to be read are the old ones. */
  lemma {:induction false} SourceUntouched(m: Mem, dst: u32, src: u32, n: nat, k: nat)
    requires MemOk(m) && n <= k && NoHazard(dst, src, k + 1)
    ensures Load(CopyTo(m, dst, src, n), CellAt(src, k)) == Load(m, CellAt(src, k))
  {
    assert forall i, j :: 0 <= i < j < n ==> CellAt(dst, i) != CellAt(src, j);
    CopyIsSimultaneous(m, dst, src, n, CellAt(src, k));
  }

  /** What strncpy does: at most `n` bytes from the `i`-th on, stopping after a NUL. */
  function StrNCopy(m: Mem, dst: u32, src: u32, i: nat, n: nat): (m': Mem)
    requires MemOk(m) && i <= n
    ensures MemOk(m')
    decreases n - i
  {
    if i == n then m
    else
      var c := Load(m, CellAt(src, i));
      var m' := Store(m, CellAt(dst, i), c);
      if c == 0 then m' else StrNCopy(m', dst, src, i + 1, n)
  }

  /** How many of at most `n` bytes a bounded string copy takes: up to and including the first NUL,
      or all of them. */
  ghost predicate CopyLength(m: Mem, src: u32, n: nat, len: nat)
    requires MemOk(m)
  {
    && len <= n && (forall k :: 0 <= k < len - 1 ==> Load(m, CellAt(src, k)) != 0)
    && (len == n || (len > 0 && Load(m, CellAt(src, len - 1)) == 0))
  }

  /** Every memory has such a length. */
  lemma {:induction false} CopyLengthExists(m: Mem, src: u32, n: nat) returns (len: nat)
    requires MemOk(m)
    ensures CopyLength(m, src, n, len)
  {
    hide Load, CellAt;
    len := 0;
    while len < n && (len == 0 || Load(m, CellAt(src, len - 1)) != 0)
      invariant len <= n && forall k :: 0 <= k < len - 1 ==> Load(m, CellAt(src, k)) != 0
    {
      len := len + 1;
    }
  }

  /** strncpy copies that many bytes, whatever the memory. */
  lemma {:induction false} StrNCopyIsCopy(m: Mem, dst: u32, src: u32, i: nat, n: nat, len: nat)
    requires MemOk(m) && CopyLength(m, src, n, len) && (i < len || i == len == n) && NoHazard(dst, src, len)
    ensures StrNCopy(CopyTo(m, dst, src, i), dst, src, i, n) == CopyTo(m, dst, src, len)
    decreases n - i
  {
    hide Load, Store, Translate, CellAt, NoHazard, CopyTo, StrNCopy;
    if i < len {
      StrNCopyStep(m, dst, src, i, n, len);
      if i + 1 < len || i + 1 == n {
        StrNCopyIsCopy(m, dst, src, i + 1, n, len);
      }
    } else {
      StrNCopyEnd(CopyTo(m, dst, src, n), dst, src, n);
    }
  }

  lemma {:induction false} StrNCopyEnd(m: Mem, dst: u32, src: u32, n: nat)
    requires MemOk(m)
    ensures StrNCopy(m, dst, src, n, n) == m
  {
  }

  lemma {:induction false} StrNCopyStep(m: Mem, dst: u32, src: u32, i: nat, n: nat, len: nat)
    requires MemOk(m) && i < len <= n && NoHazard(dst, src, len)
    ensures StrNCopy(CopyTo(m, dst, src, i), dst, src, i, n)
            == if Load(m, CellAt(src, i)) == 0 then CopyTo(m, dst, src, i + 1)
               else StrNCopy(CopyTo(m, dst, src, i + 1), dst, src, i + 1, n)
  {
    hide Load, Store, Translate, CellAt;
    assert NoHazard(dst, src, i + 1);
    SourceUntouched(m, dst, src, i, i);
  }

  /** The unbounded string copy ends at distance `d`: there the memory as copied so far has its first
      NUL. */
  ghost predicate StopsAt(m: Mem, dst: u32, src: u32, d: nat)
    requires MemOk(m)
  {
    && Load(CopyTo(m, dst, src, d), CellAt(src, d)) == 0
    && forall k :: 0 <= k < d ==> Load(CopyTo(m, dst, src, k), CellAt(src, k)) != 0
  }

  /** The loop ends at some distance if and only if at some distance it meets a NUL: otherwise it runs on
      for ever. */
  lemma {:induction false} StopsExactly(m: Mem, dst: u32, src: u32)
    requires MemOk(m)
    ensures (exists d :: StopsAt(m, dst, src, d))
            <==> exists k: nat :: Load(CopyTo(m, dst, src, k), CellAt(src, k)) == 0
  {
    hide Load, CellAt, CopyTo;
    if k: nat :| Load(CopyTo(m, dst, src, k), CellAt(src, k)) == 0 {
      StopsBy(m, dst, src, k);
    }
    if d :| StopsAt(m, dst, src, d) {
      assert Load(CopyTo(m, dst, src, d), CellAt(src, d)) == 0;
    }
  }

  lemma {:induction false} StopsBy(m: Mem, dst: u32, src: u32, k: nat)
    requires MemOk(m) && Load(CopyTo(m, dst, src, k), CellAt(src, k)) == 0
    ensures exists d :: StopsAt(m, dst, src, d)
    decreases k
  {
    hide Load, CellAt, CopyTo;
    if j: nat :| j < k && Load(CopyTo(m, dst, src, j), CellAt(src, j)) == 0 {
      StopsBy(m, dst, src, j);
    } else {
      assert StopsAt(m, dst, src, k);
    }
  }

  /** While nothing is overwritten ahead of the copy, that is the first NUL of the source. */
  lemma {:induction false} StopsAtNul(m: Mem, dst: u32, src: u32, d: nat)
    requires MemOk(m) && NoHazard(dst, src, d + 1)
    ensures StopsAt(m, dst, src, d) <==> NulAt(m, src, d)
  {
    hide Load, Store, Translate, CellAt, CopyTo;
    forall k | 0 <= k <= d
      ensures Load(CopyTo(m, dst, src, k), CellAt(src, k)) == Load(m, CellAt(src, k))
    {
      assert NoHazard(dst, src, k + 1);
      SourceUntouched(m, dst, src, k, k);
    }
  }

  function FillTo(m: Mem, dst: u32, v: byte, n: nat): (m': Mem)
    requires MemOk(m)
    ensures MemOk(m')
  {
    if n == 0 then m else Store(FillTo(m, dst, v, n - 1), CellAt(dst, n - 1), v)
  }

  lemma {:induction false} FillSets(m: Mem, dst: u32, v: byte, n: nat, c: Cell)
    requires MemOk(m) && IsCell(c)
    ensures Load(FillTo(m, dst, v, n), c) == if LastWriter(dst, n, c) >= 0 then v else Load(m, c)
  {
    if n > 0 {
      FillSets(m, dst, v, n - 1, c);
    }
  }
}
