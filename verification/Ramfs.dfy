/** The in-memory file table the kernel statements `ramfs_init`, `ramfs_put` and `ramfs_get` work on:
    the emitted byte loops against a first-match association list. */
module Ramfs {
  import opened Wrappers
  import opened Words

  const SLOTS: nat := 8
  const SLOT_SIZE: nat := 32
  const TABLE_SIZE: nat := 256
  const NAME_SIZE: nat := 16

  // ---- byte strings ----

  /** The bytes from a name's address on: a NUL, or at least sixteen bytes, can be read. */
  predicate Terminated(name: seq<Byte>) {
    0 in name || |name| >= NAME_SIZE
  }

  predicate NulFree(s: seq<Byte>) {
    forall i | 0 <= i < |s| :: s[i] != 0
  }

  /** Bytes of the name that fit an entry. */
  function NameLen(name: seq<Byte>): (n: nat)
    requires Terminated(name)
    ensures n <= 15 && n <= |name| && NulFree(name[..n]) && (n < 15 ==> n < |name| && name[n] == 0)
  {
    NameLenFrom(name, 0)
  }

  lemma StillInside(name: seq<Byte>, i: nat)
    requires Terminated(name) && i < NAME_SIZE && i <= |name| && NulFree(name[..i])
    ensures i < |name|
  {
    assert name[..|name|] == name;
  }

  lemma PrefixBytes(name: seq<Byte>, n: nat)
    requires n <= |name| && NulFree(name[..n])
    ensures forall i | 0 <= i < n :: name[i] != 0
  {
    forall i | 0 <= i < n
      ensures name[i] != 0
    {
      assert name[..n][i] == name[i];
    }
  }

  function NameLenFrom(name: seq<Byte>, i: nat): (n: nat)
    requires Terminated(name) && i <= 15 && i <= |name| && NulFree(name[..i])
    ensures i <= n <= 15 && n <= |name| && NulFree(name[..n]) && (n < 15 ==> n < |name| && name[n] == 0)
    decreases 15 - i
  {
    if i == 15 then 15
    else
      StillInside(name, i);
      if name[i] == 0 then i else NameLenFrom(name, i + 1)
  }

  function WriteAt(s: seq<Byte>, at: nat, b: seq<Byte>): (t: seq<Byte>)
    requires at + |b| <= |s|
    ensures |t| == |s|
  {
    s[..at] + b + s[at + |b|..]
  }

  // ---- what the code computes ----

  /** First slot whose name starts with NUL; 8 if there is none. */
  function FirstFree(s: seq<Byte>, k: nat): (r: nat)
    requires |s| >= TABLE_SIZE && k <= SLOTS
    ensures k <= r <= SLOTS && (r < SLOTS ==> s[SLOT_SIZE * r] == 0)
    ensures forall j | k <= j < r :: s[SLOT_SIZE * j] != 0
    decreases SLOTS - k
  {
    if k == SLOTS || s[SLOT_SIZE * k] == 0 then k else FirstFree(s, k + 1)
  }

  function Fields(ptr: Word, len: Word): (b: seq<Byte>)
    ensures |b| == 16
  {
    LE(ptr, 8) + LE(len, 8)
  }

  /** `ramfs_put`. A full table still stores pointer and length, behind the table. */
  function PutSpec(s: seq<Byte>, name: seq<Byte>, ptr: Word, len: Word): (t: seq<Byte>)
    requires |s| >= TABLE_SIZE + SLOT_SIZE && Terminated(name)
    ensures |t| == |s|
  {
    var k := FirstFree(s, 0);
    var at := SLOT_SIZE * k;
    var named := if k < SLOTS then WriteAt(s, at, name[..NameLen(name)] + [0]) else s;
    WriteAt(named, at + NAME_SIZE, Fields(ptr, len))
  }

  /** The comparison loop from byte j on, both strings equal and without NUL before it. */
  predicate SameName(s: seq<Byte>, at: nat, name: seq<Byte>, j: nat)
    requires at + NAME_SIZE <= |s| && Terminated(name) && j <= NAME_SIZE && j <= |name| && NulFree(name[..j])
    decreases NAME_SIZE - j
  {
    if j == NAME_SIZE then true
    else
      StillInside(name, j);
      if s[at + j] != name[j] then false
      else s[at + j] == 0 || SameName(s, at, name, j + 1)
  }

  /** First slot whose name compares equal; 8 if there is none. */
  function FirstMatch(s: seq<Byte>, name: seq<Byte>, k: nat): (r: nat)
    requires |s| >= TABLE_SIZE && Terminated(name) && k <= SLOTS
    ensures k <= r <= SLOTS && (r < SLOTS ==> SameName(s, SLOT_SIZE * r, name, 0))
    ensures forall j | k <= j < r :: !SameName(s, SLOT_SIZE * j, name, 0)
    decreases SLOTS - k
  {
    if k == SLOTS || SameName(s, SLOT_SIZE * k, name, 0) then k else FirstMatch(s, name, k + 1)
  }

  /** `ramfs_get`: the pointer of the first match, or 0. */
  function GetSpec(s: seq<Byte>, name: seq<Byte>): Word
    requires |s| >= TABLE_SIZE && Terminated(name)
  {
    var k := FirstMatch(s, name, 0);
    if k < SLOTS then WordAt(s, SLOT_SIZE * k + NAME_SIZE) else 0
  }

  // ---- the emitted loops ----

  /** Data memory from the table on; what lies behind the table belongs to other items. */
  class RamDisk {
    const mem: array<Byte>

    ghost predicate Valid() {
      mem.Length >= TABLE_SIZE + SLOT_SIZE
    }

    constructor (mem: array<Byte>)
      requires mem.Length >= TABLE_SIZE + SLOT_SIZE
      ensures this.mem == mem && Valid()
    {
      this.mem := mem;
    }

    /** Zero the table, one byte a turn. */
    method Init()
      requires Valid()
      modifies mem
      ensures mem[..] == WriteAt(old(mem[..]), 0, seq<Byte>(TABLE_SIZE, i => 0))
    {
      var rdi, rcx := 0, TABLE_SIZE;
      while rcx != 0
        invariant 0 <= rcx && rdi + rcx == TABLE_SIZE
        invariant forall i | 0 <= i < mem.Length :: mem[i] == if i < rdi then 0 else old(mem[i])
        decreases rcx
      {
        mem[rdi] := 0;
        rdi := rdi + 1;
        rcx := rcx - 1;
      }
    }

    method StoreQuad(at: nat, v: Word)
      requires Valid() && at + 8 <= mem.Length
      modifies mem
      ensures mem[..] == WriteAt(old(mem[..]), at, LE(v, 8))
    {
      var b := LE(v, 8);
      var i := 0;
      while i < 8
        invariant 0 <= i <= 8
        invariant forall j | 0 <= j < mem.Length :: mem[j] == if at <= j < at + i then b[j - at] else old(mem[j])
      {
        mem[at + i] := b[i];
        i := i + 1;
      }
    }

    /** The search for a free slot; r15 runs over the slots. */
    method FindFree() returns (r15: nat, found: bool)
      requires Valid()
      ensures r15 == SLOT_SIZE * FirstFree(mem[..], 0) && (found <==> FirstFree(mem[..], 0) < SLOTS)
    {
      r15 := 0;
      var rcx: nat := SLOTS;
      while true
        invariant 1 <= rcx <= SLOTS && r15 == SLOT_SIZE * (SLOTS - rcx)
        invariant FirstFree(mem[..], 0) == FirstFree(mem[..], SLOTS - rcx)
        decreases rcx
      {
        if mem[r15] == 0 { return r15, true; }
        r15 := r15 + SLOT_SIZE;
        rcx := rcx - 1;
        if rcx == 0 { return r15, false; }
      }
    }

    /** The copy loop: at most fifteen bytes, stopping at the NUL it copies, else adding one. */
    method CopyName(at: nat, name: seq<Byte>)
      requires Valid() && at + NAME_SIZE <= mem.Length && Terminated(name)
      modifies mem
      ensures mem[..] == WriteAt(old(mem[..]), at, name[..NameLen(name)] + [0])
    {
      hide WriteAt, NameLen;
      var rsi, rdi: nat, rcx: nat := 0, at, 15;
      ghost var n := NameLen(name);
      PrefixBytes(name, n);
      while rcx != 0
        invariant rsi + rcx == 15 && rdi == at + rsi && rsi <= n
        invariant forall i | 0 <= i < mem.Length :: mem[i] == if at <= i < rdi then name[i - at] else old(mem[i])
        decreases rcx
      {
        assert name[..n][..rsi] == name[..rsi];
        StillInside(name, rsi);
        var al := name[rsi];
        mem[rdi] := al;
        if al == 0 {
          WrittenAt(old(mem[..]), at, name[..n] + [0], mem[..]);
          return;
        }
        rsi, rdi := rsi + 1, rdi + 1;
        rcx := rcx - 1;
      }
      mem[rdi] := 0;
      WrittenAt(old(mem[..]), at, name[..n] + [0], mem[..]);
    }

    method Put(name: seq<Byte>, ptr: Word, len: Word)
      requires Valid() && Terminated(name)
      modifies mem
      ensures mem[..] == PutSpec(old(mem[..]), name, ptr, len)
    {
      hide WriteAt, FirstFree, NameLen;
      var r15, found := FindFree();
      if found {
        CopyName(r15, name);
      }
      ghost var named := mem[..];
      StoreQuad(r15 + 16, ptr);
      StoreQuad(r15 + 24, len);
      TwoWrites(named, r15 + 16, LE(ptr, 8), LE(len, 8));
    }

    /** The comparison of one slot, byte by byte. */
    method Compare(at: nat, name: seq<Byte>) returns (same: bool)
      requires Valid() && at + NAME_SIZE <= mem.Length && Terminated(name)
      ensures same == SameName(mem[..], at, name, 0)
    {
      var rsi, rdi: nat, r14: nat := at, 0, NAME_SIZE;
      while r14 != 0
        invariant rdi + r14 == NAME_SIZE && rsi == at + rdi && rdi <= |name| && NulFree(name[..rdi])
        invariant SameName(mem[..], at, name, 0) == SameName(mem[..], at, name, rdi)
        decreases r14
      {
        StillInside(name, rdi);
        var al, dl := mem[rsi], name[rdi];
        if al != dl { return false; }
        if al == 0 { return true; }
        assert name[..rdi + 1] == name[..rdi] + [name[rdi]];
        rsi, rdi := rsi + 1, rdi + 1;
        r14 := r14 - 1;
      }
      return true;
    }

    method LoadQuad(at: nat) returns (v: Word)
      requires Valid() && at + 8 <= mem.Length
      ensures v == WordAt(mem[..], at)
    {
      v := WordAt(mem[..], at);
    }

    method Get(name: seq<Byte>) returns (ptr: Word)
      requires Valid() && Terminated(name)
      ensures ptr == GetSpec(mem[..], name)
    {
      var r13, rcx: nat := 0, SLOTS;
      while true
        invariant 1 <= rcx <= SLOTS && r13 == SLOT_SIZE * (SLOTS - rcx)
        invariant FirstMatch(mem[..], name, 0) == FirstMatch(mem[..], name, SLOTS - rcx)
        decreases rcx
      {
        var same := Compare(r13, name);
        if same {
          ptr := LoadQuad(r13 + 16);
          return;
        }
        r13 := r13 + SLOT_SIZE;
        rcx := rcx - 1;
        if rcx == 0 { return 0; }
      }
    }
  }

  lemma WrittenAt(s: seq<Byte>, at: nat, b: seq<Byte>, t: seq<Byte>)
    requires at + |b| <= |s| == |t|
    requires forall i | 0 <= i < |s| :: t[i] == if at <= i < at + |b| then b[i - at] else s[i]
    ensures t == WriteAt(s, at, b)
  {
  }

  lemma TwoWrites(s: seq<Byte>, at: nat, a: seq<Byte>, b: seq<Byte>)
    requires |a| == 8 && at + 8 + |b| <= |s|
    ensures WriteAt(WriteAt(s, at, a), at + 8, b) == WriteAt(s, at, a + b)
  {
  }

  // ---- the association list ----

  datatype Entry = Entry(name: seq<Byte>, ptr: Word, len: Word)

  /** A name that fits: one to fifteen bytes, none of them NUL. */
  predicate Fits(name: seq<Byte>) {
    1 <= |name| <= 15 && NulFree(name)
  }

  /** Slot k holds the entry: its name, NUL-padded, then pointer and length. */
  ghost predicate SlotHolds(s: seq<Byte>, k: nat, e: Entry)
    requires SLOT_SIZE * k + SLOT_SIZE <= |s|
  {
    var at := SLOT_SIZE * k;
    && Fits(e.name) && s[at..at + |e.name|] == e.name && s[at + |e.name|] == 0
    && s[at + NAME_SIZE..at + SLOT_SIZE] == Fields(e.ptr, e.len)
  }

  /** The table holds the entries in its first slots; the others are free. */
  ghost predicate Represents(s: seq<Byte>, es: seq<Entry>) {
    && |s| >= TABLE_SIZE + SLOT_SIZE && |es| <= SLOTS
    && (forall k | 0 <= k < |es| :: SlotHolds(s, k, es[k]))
    && (forall k | |es| <= k < SLOTS :: s[SLOT_SIZE * k] == 0)
  }

  /** Pointer of the earliest entry with the name, 0 if there is none. */
  function Lookup(es: seq<Entry>, name: seq<Byte>): Word {
    if es == [] then 0 else if es[0].name == name then es[0].ptr else Lookup(es[1..], name)
  }

  lemma InitRepresents(s: seq<Byte>)
    requires |s| >= TABLE_SIZE + SLOT_SIZE
    ensures Represents(WriteAt(s, 0, seq<Byte>(TABLE_SIZE, i => 0)), [])
  {
  }

  lemma FreeSlot(s: seq<Byte>, es: seq<Entry>)
    requires Represents(s, es)
    ensures FirstFree(s, 0) == |es|
  {
    forall k | 0 <= k < |es|
      ensures s[SLOT_SIZE * k] != 0
    {
      SlotOccupied(s, k, es[k]);
    }
  }

  lemma SlotOccupied(s: seq<Byte>, k: nat, e: Entry)
    requires SLOT_SIZE * k + SLOT_SIZE <= |s| && SlotHolds(s, k, e)
    ensures s[SLOT_SIZE * k] != 0
  {
    assert s[SLOT_SIZE * k] == s[SLOT_SIZE * k..SLOT_SIZE * k + |e.name|][0];
  }

  lemma SlotKept(s: seq<Byte>, t: seq<Byte>, k: nat, e: Entry)
    requires SLOT_SIZE * k + SLOT_SIZE <= |s| && |s| == |t| && SlotHolds(s, k, e)
    requires s[SLOT_SIZE * k..SLOT_SIZE * k + SLOT_SIZE] == t[SLOT_SIZE * k..SLOT_SIZE * k + SLOT_SIZE]
    ensures SlotHolds(t, k, e)
  {
    hide Fields, NulFree;
    var at, n := SLOT_SIZE * k, |e.name|;
    Within(s, at, 0, n);
    Within(t, at, 0, n);
    Within(s, at, n, NAME_SIZE);
    Within(t, at, n, NAME_SIZE);
    Within(s, at, NAME_SIZE, SLOT_SIZE);
    Within(t, at, NAME_SIZE, SLOT_SIZE);
  }

  /** Part of a slot. */
  lemma Within(s: seq<Byte>, at: nat, i: nat, j: nat)
    requires at + SLOT_SIZE <= |s| && i < j <= SLOT_SIZE
    ensures s[at..at + SLOT_SIZE][i..j] == s[at + i..at + j] && s[at..at + SLOT_SIZE][i] == s[at + i]
  {
    var a, b := s[at..at + SLOT_SIZE][i..j], s[at + i..at + j];
    forall x | 0 <= x < j - i
      ensures a[x] == b[x]
    {
      assert a[x] == s[at..at + SLOT_SIZE][i + x] == s[at + (i + x)];
    }
  }

  lemma Untouched(s: seq<Byte>, at: nat, b: seq<Byte>, lo: nat, hi: nat)
    requires at + |b| <= |s| && lo <= hi <= |s| && (hi <= at || at + |b| <= lo)
    ensures WriteAt(s, at, b)[lo..hi] == s[lo..hi]
  {
  }

  /** What a put into a free slot leaves in that slot. */
  lemma PutSlot(s: seq<Byte>, nm: seq<Byte>, ptr: Word, len: Word, k: nat)
    requires |s| >= TABLE_SIZE + SLOT_SIZE && k < SLOTS && Fits(nm)
    ensures var at := SLOT_SIZE * k;
            SlotHolds(WriteAt(WriteAt(s, at, nm + [0]), at + NAME_SIZE, Fields(ptr, len)), k, Entry(nm, ptr, len))
  {
    hide Fields, NulFree;
    var at, n := SLOT_SIZE * k, |nm|;
    var u := WriteAt(s, at, nm + [0]);
    var t := WriteAt(u, at + NAME_SIZE, Fields(ptr, len));
    assert u[at..at + n] == nm && u[at + n] == 0;
    assert t[at + NAME_SIZE..at + SLOT_SIZE] == Fields(ptr, len);
    Untouched(u, at + NAME_SIZE, Fields(ptr, len), at, at + n);
    assert t[at + n] == u[at + n];
  }

  /** What it leaves elsewhere. */
  lemma PutElsewhere(s: seq<Byte>, b: seq<Byte>, f: seq<Byte>, k: nat, lo: nat, hi: nat)
    requires |s| >= TABLE_SIZE + SLOT_SIZE && k < SLOTS && |b| <= NAME_SIZE && |f| == 16 && lo <= hi <= |s|
    requires hi <= SLOT_SIZE * k || SLOT_SIZE * k + SLOT_SIZE <= lo
    ensures WriteAt(WriteAt(s, SLOT_SIZE * k, b), SLOT_SIZE * k + NAME_SIZE, f)[lo..hi] == s[lo..hi]
  {
    hide WriteAt;
    var at := SLOT_SIZE * k;
    Untouched(s, at, b, lo, hi);
    Untouched(WriteAt(s, at, b), at + NAME_SIZE, f, lo, hi);
  }

  /** The bytes at a name's address spell `nm`. */
  predicate Spells(name: seq<Byte>, nm: seq<Byte>) {
    |nm| < |name| && name[..|nm|] == nm && name[|nm|] == 0
  }

  lemma NameLenIs(name: seq<Byte>, nm: seq<Byte>)
    requires Fits(nm) && Spells(name, nm) && Terminated(name)
    ensures NameLen(name) == |nm|
  {
    PrefixBytes(name, |nm|);
    PrefixBytes(name, NameLen(name));
  }

  /** The name an entry keeps: the bytes before the first NUL, at most fifteen. */
  function StoredName(name: seq<Byte>): (nm: seq<Byte>)
    requires Terminated(name)
    ensures |nm| <= 15 && NulFree(nm)
  {
    name[..NameLen(name)]
  }

  /** A put while the table has room appends an entry with the stored name, unless that is empty; nothing behind the
      table changes. */
  lemma PutStores(s: seq<Byte>, es: seq<Entry>, name: seq<Byte>, ptr: Word, len: Word)
    requires Represents(s, es) && |es| < SLOTS && Terminated(name)
    ensures Represents(PutSpec(s, name, ptr, len),
                       if StoredName(name) == [] then es else es + [Entry(StoredName(name), ptr, len)])
    ensures PutSpec(s, name, ptr, len)[TABLE_SIZE..] == s[TABLE_SIZE..]
  {
    hide SlotHolds, Fields, FirstFree, NameLen, WriteAt;
    var k, nm := |es|, StoredName(name);
    FreeSlot(s, es);
    var t, b, f := PutSpec(s, name, ptr, len), nm + [0], Fields(ptr, len);
    assert t == WriteAt(WriteAt(s, SLOT_SIZE * k, b), SLOT_SIZE * k + NAME_SIZE, f);
    hide PutSpec, StoredName;
    if nm == [] {
      EmptySlot(s, b, f, k);
    } else {
      PutSlot(s, nm, ptr, len, k);
    }
    forall j | 0 <= j < k
      ensures SlotHolds(t, j, es[j])
    {
      PutElsewhere(s, b, f, k, SLOT_SIZE * j, SLOT_SIZE * j + SLOT_SIZE);
      SlotKept(s, t, j, es[j]);
    }
    forall j | k < j < SLOTS
      ensures t[SLOT_SIZE * j] == 0
    {
      PutElsewhere(s, b, f, k, SLOT_SIZE * j, SLOT_SIZE * j + SLOT_SIZE);
      assert t[SLOT_SIZE * j] == t[SLOT_SIZE * j..SLOT_SIZE * j + SLOT_SIZE][0];
      assert s[SLOT_SIZE * j] == s[SLOT_SIZE * j..SLOT_SIZE * j + SLOT_SIZE][0];
    }
    PutElsewhere(s, b, f, k, TABLE_SIZE, |s|);
    assert t[TABLE_SIZE..] == t[TABLE_SIZE..|s|] && s[TABLE_SIZE..] == s[TABLE_SIZE..|s|];
  }

  /** A put of an empty name leaves its slot free. */
  lemma EmptySlot(s: seq<Byte>, b: seq<Byte>, f: seq<Byte>, k: nat)
    requires |s| >= TABLE_SIZE + SLOT_SIZE && k < SLOTS && b == [0] && |f| == 16
    ensures WriteAt(WriteAt(s, SLOT_SIZE * k, b), SLOT_SIZE * k + NAME_SIZE, f)[SLOT_SIZE * k] == 0
  {
    var at := SLOT_SIZE * k;
    var u := WriteAt(s, at, b);
    assert u[at] == 0;
  }

  /** Putting a fitting name while the table has room appends an entry, and nothing behind the table changes. */
  lemma PutAppends(s: seq<Byte>, es: seq<Entry>, name: seq<Byte>, nm: seq<Byte>, ptr: Word, len: Word)
    requires Represents(s, es) && |es| < SLOTS && Fits(nm) && Spells(name, nm) && Terminated(name)
    ensures Represents(PutSpec(s, name, ptr, len), es + [Entry(nm, ptr, len)])
    ensures PutSpec(s, name, ptr, len)[TABLE_SIZE..] == s[TABLE_SIZE..]
  {
    hide Represents, PutSpec, NameLen;
    NameLenIs(name, nm);
    PutStores(s, es, name, ptr, len);
  }

  /** A table is one list only. */
  lemma OneList(s: seq<Byte>, es: seq<Entry>, fs: seq<Entry>)
    requires Represents(s, es) && Represents(s, fs)
    ensures es == fs
  {
    hide SlotHolds, FirstFree;
    FreeSlot(s, es);
    FreeSlot(s, fs);
    forall k | 0 <= k < |es|
      ensures es[k] == fs[k]
    {
      OneEntry(s, k, es[k], fs[k]);
    }
  }

  lemma NameBytes(s: seq<Byte>, k: nat, e: Entry)
    requires SLOT_SIZE * k + SLOT_SIZE <= |s| && SlotHolds(s, k, e)
    ensures forall i | 0 <= i < |e.name| :: s[SLOT_SIZE * k + i] == e.name[i] != 0
  {
    hide Fields;
    var at := SLOT_SIZE * k;
    forall i | 0 <= i < |e.name|
      ensures s[at + i] == e.name[i] != 0
    {
      assert s[at..at + |e.name|][i] == s[at + i];
    }
  }

  lemma OneEntry(s: seq<Byte>, k: nat, e: Entry, f: Entry)
    requires SLOT_SIZE * k + SLOT_SIZE <= |s| && SlotHolds(s, k, e) && SlotHolds(s, k, f)
    ensures e == f
  {
    hide Fields, LE;
    var at := SLOT_SIZE * k;
    NameBytes(s, k, e);
    NameBytes(s, k, f);
    SameFields(e.ptr, e.len, f.ptr, f.len);
  }

  lemma SameFields(p: Word, n: Word, q: Word, l: Word)
    requires Fields(p, n) == Fields(q, l)
    ensures p == q && n == l
  {
    hide LE, FromLE;
    LE8(p);
    LE8(n);
    LE8(q);
    LE8(l);
    assert LE(p, 8) == Fields(p, n)[..8] == LE(q, 8);
    assert LE(n, 8) == Fields(p, n)[8..] == LE(l, 8);
  }

  /** A put into a full table leaves the table alone and overwrites bytes 272 to 287, which belong to
      whatever lies behind it: the entry is lost. */
  lemma FullPutSpills(s: seq<Byte>, es: seq<Entry>, name: seq<Byte>, ptr: Word, len: Word)
    requires Represents(s, es) && |es| == SLOTS && Terminated(name)
    ensures var t := PutSpec(s, name, ptr, len);
            && Represents(t, es) && t[..TABLE_SIZE] == s[..TABLE_SIZE]
            && t[TABLE_SIZE + NAME_SIZE..TABLE_SIZE + SLOT_SIZE] == Fields(ptr, len)
  {
    hide SlotHolds, Fields, FirstFree, NameLen;
    FreeSlot(s, es);
    var t := PutSpec(s, name, ptr, len);
    forall j | 0 <= j < SLOTS
      ensures SlotHolds(t, j, es[j])
    {
      Untouched(s, TABLE_SIZE + NAME_SIZE, Fields(ptr, len), SLOT_SIZE * j, SLOT_SIZE * j + SLOT_SIZE);
      SlotKept(s, t, j, es[j]);
    }
  }

  // ---- lookups ----

  /** Two NUL-terminated strings compare equal exactly when they are. */
  lemma {:induction false} ComparesEqual(s: seq<Byte>, at: nat, stored: seq<Byte>, name: seq<Byte>, nm: seq<Byte>,
                                         j: nat)
    requires at + NAME_SIZE <= |s| && Fits(stored) && s[at..at + |stored|] == stored && s[at + |stored|] == 0
    requires Fits(nm) && Spells(name, nm) && Terminated(name)
    requires j <= |stored| && j <= |nm| && stored[..j] == nm[..j] && NulFree(name[..j])
    ensures SameName(s, at, name, j) <==> stored == nm
    decreases NAME_SIZE - j
  {
    assert j < |stored| ==> s[at + j] == s[at..at + |stored|][j] == stored[j];
    assert j < |nm| ==> name[j] == name[..|nm|][j] == nm[j];
    if j < |stored| && j < |nm| && stored[j] == nm[j] {
      assert stored[..j + 1] == stored[..j] + [stored[j]] && nm[..j + 1] == nm[..j] + [nm[j]];
      assert name[..j + 1] == name[..j] + [name[j]];
      ComparesEqual(s, at, stored, name, nm, j + 1);
    } else if j == |stored| == |nm| {
      assert stored == stored[..j] && nm == nm[..j];
    }
  }

  /** A free slot matches no fitting name. */
  lemma FreeDiffers(s: seq<Byte>, at: nat, name: seq<Byte>, nm: seq<Byte>)
    requires at + NAME_SIZE <= |s| && s[at] == 0 && Fits(nm) && Spells(name, nm) && Terminated(name)
    ensures !SameName(s, at, name, 0)
  {
    assert name[0] == name[..|nm|][0] == nm[0];
  }

  lemma QuadOfFields(s: seq<Byte>, at: nat, ptr: Word, len: Word)
    requires at + 16 <= |s| && s[at..at + 16] == Fields(ptr, len)
    ensures WordAt(s, at) == ptr
  {
    hide LE, FromLE;
    LE8(ptr);
    assert s[at..at + 8] == s[at..at + 16][..8] == LE(ptr, 8);
  }

  /** Whether slot k matches, and what it then holds. */
  lemma SlotMatches(s: seq<Byte>, k: nat, e: Entry, name: seq<Byte>, nm: seq<Byte>)
    requires SLOT_SIZE * k + SLOT_SIZE <= |s| && SlotHolds(s, k, e)
    requires Fits(nm) && Spells(name, nm) && Terminated(name)
    ensures SameName(s, SLOT_SIZE * k, name, 0) <==> e.name == nm
    ensures WordAt(s, SLOT_SIZE * k + NAME_SIZE) == e.ptr
  {
    hide SameName, WordAt, Fields, Spells, Fits;
    EmptyNulFree(name);
    ComparesEqual(s, SLOT_SIZE * k, e.name, name, nm, 0);
    QuadOfFields(s, SLOT_SIZE * k + NAME_SIZE, e.ptr, e.len);
  }

  /** `ramfs_get` is the lookup of the association list, from slot k on. */
  lemma {:induction false} GetFrom(s: seq<Byte>, es: seq<Entry>, name: seq<Byte>, nm: seq<Byte>, k: nat)
    requires Represents(s, es) && k <= SLOTS && Fits(nm) && Spells(name, nm) && Terminated(name)
    ensures var r := FirstMatch(s, name, k);
            (if r < SLOTS then WordAt(s, SLOT_SIZE * r + NAME_SIZE) else 0) ==
            (if k <= |es| then Lookup(es[k..], nm) else 0)
    decreases SLOTS - k
  {
    hide SameName, WordAt, Spells, Fits, SlotHolds;
    if k < |es| {
      SlotMatches(s, k, es[k], name, nm);
      assert es[k..][0] == es[k] && es[k..][1..] == es[k + 1..];
      if es[k].name != nm {
        GetFrom(s, es, name, nm, k + 1);
      }
    } else {
      assert k == |es| ==> es[k..] == [];
      if k < SLOTS {
        FreeDiffers(s, SLOT_SIZE * k, name, nm);
        GetFrom(s, es, name, nm, k + 1);
      }
    }
  }

  lemma EmptyNulFree(name: seq<Byte>)
    ensures NulFree(name[..0])
  {
  }

  lemma GetIsLookup(s: seq<Byte>, es: seq<Entry>, name: seq<Byte>, nm: seq<Byte>)
    requires Represents(s, es) && Fits(nm) && Spells(name, nm) && Terminated(name)
    ensures GetSpec(s, name) == Lookup(es, nm)
  {
    hide FirstMatch, WordAt, Represents;
    GetFrom(s, es, name, nm, 0);
    assert es[0..] == es;
  }

  /** Memory after init and a run of puts, given the bytes at each name's address. */
  function RunPuts(s: seq<Byte>, names: seq<seq<Byte>>, es: seq<Entry>): (t: seq<Byte>)
    requires |s| >= TABLE_SIZE + SLOT_SIZE && |names| == |es| && forall i | 0 <= i < |names| :: Terminated(names[i])
    ensures |t| == |s|
    decreases |es|
  {
    if es == [] then WriteAt(s, 0, seq<Byte>(TABLE_SIZE, i => 0))
    else
      var n := |es| - 1;
      PutSpec(RunPuts(s, names[..n], es[..n]), names[n], es[n].ptr, es[n].len)
  }

  predicate AllSpelled(names: seq<seq<Byte>>, es: seq<Entry>) {
    && |names| == |es|
    && forall i | 0 <= i < |es| :: Fits(es[i].name) && Spells(names[i], es[i].name) && Terminated(names[i])
  }

  /** After init and any run of at most eight puts of fitting names, the table is the list of puts and no
      byte behind the table has changed. */
  lemma {:induction false} RunRefinesList(s: seq<Byte>, names: seq<seq<Byte>>, es: seq<Entry>)
    requires |s| >= TABLE_SIZE + SLOT_SIZE && |es| <= SLOTS && AllSpelled(names, es)
    ensures Represents(RunPuts(s, names, es), es)
    ensures RunPuts(s, names, es)[TABLE_SIZE..] == s[TABLE_SIZE..]
    decreases |es|
  {
    hide PutSpec, Represents, Fits, Spells;
    if es == [] {
      InitRepresents(s);
    } else {
      var n := |es| - 1;
      RunRefinesList(s, names[..n], es[..n]);
      PutAppends(RunPuts(s, names[..n], es[..n]), es[..n], names[n], es[n].name, es[n].ptr, es[n].len);
      assert es[..n] + [es[n]] == es;
    }
  }

  /** `get` after such a run: the pointer of the earliest put with the name, 0 if there was none. */
  lemma GetAfterPuts(s: seq<Byte>, names: seq<seq<Byte>>, es: seq<Entry>, name: seq<Byte>, nm: seq<Byte>)
    requires |s| >= TABLE_SIZE + SLOT_SIZE && |es| <= SLOTS && AllSpelled(names, es)
    requires Fits(nm) && Spells(name, nm) && Terminated(name)
    ensures GetSpec(RunPuts(s, names, es), name) == Lookup(es, nm)
  {
    hide GetSpec, RunPuts, Represents;
    RunRefinesList(s, names, es);
    GetIsLookup(RunPuts(s, names, es), es, name, nm);
  }
}
