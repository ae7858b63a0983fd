/** `src/mem.rs`: memory protection flags and the `mmap` wrappers. Addresses
    are numbers; the null address is 0. The kernel's `mmap` is a function
    from the call's arguments to the raw machine word it returns. */
module Mem {
  import opened Base
  import opened Errors
  import opened Util
  import opened Files

  /** Protection bits (Linux values). */
  const PROT_READ: bv64 := 0x1
  const PROT_WRITE: bv64 := 0x2
  const PROT_EXEC: bv64 := 0x4
  const PROT_ALL: bv64 := 0x7

  /** The `MAP_FIXED` flag (Linux value). */
  const MAP_FIXED: bv64 := 0x10

  /** `perm.contains(prm)`. */
  predicate Contains(perm: Perm, prm: Perm)
  {
    perm & prm == prm
  }

  /** The protection a permission asks for, one bit per permission. */
  function ProtBits(perm: Perm): bv64
  {
    (if Contains(perm, READ) then PROT_READ else 0)
    | (if Contains(perm, WRITE) then PROT_WRITE else 0)
    | (if Contains(perm, EXEC) then PROT_EXEC else 0)
  }

  /** The protection holds PROT_READ, PROT_WRITE, PROT_EXEC exactly when
      the permission holds Read, Write, Exec, and no other bit; so distinct
      permissions give distinct protections, and no permission none. */
  lemma ProtBitsSpec(perm: Perm)
    ensures ProtBits(perm) & PROT_READ != 0 <==> perm & READ != 0
    ensures ProtBits(perm) & PROT_WRITE != 0 <==> perm & WRITE != 0
    ensures ProtBits(perm) & PROT_EXEC != 0 <==> perm & EXEC != 0
    ensures ProtBits(perm) & !PROT_ALL == 0
    ensures ProtBits(perm) == 0 <==> perm == 0
  {
  }

  /** Each permission has its own protection. */
  lemma ProtBitsInjective(p: Perm, q: Perm)
    ensures ProtBits(p) == ProtBits(q) ==> p == q
  {
  }

  /** `Prot::from(perm)`: a loop over the (protection, permission) table. */
  method ProtFrom(perm: Perm) returns (prot: bv64)
    ensures prot == ProtBits(perm)
  {
    var table := [(PROT_READ, READ), (PROT_WRITE, WRITE), (PROT_EXEC, EXEC)];
    prot := 0;
    for i := 0 to |table|
      invariant prot == (if i > 0 && Contains(perm, READ) then PROT_READ else 0)
                        | (if i > 1 && Contains(perm, WRITE) then PROT_WRITE else 0)
                        | (if i > 2 && Contains(perm, EXEC) then PROT_EXEC else 0)
    {
      var (prt, prm) := table[i];
      if Contains(perm, prm) {
        prot := prot | prt;
      }
    }
  }

  /** The arguments of an `mmap` system call. */
  datatype MmapCall = MmapCall(addr: nat, length: nat, prot: bv64, flags: bv64, fd: int, offset: U64)

  /** A mapping: its address and length. */
  datatype Map = Map(ptr: nat, length: nat)

  /** A segment of a file. */
  datatype Segment = Segment(offset: U64, length: nat)

  /** The call `do_map` makes: `MAP_FIXED` exactly when a location is given. */
  function MmapRequest(fd: int, loc: nat, perm: Perm, offset: U64, length: nat): (c: MmapCall)
    ensures c.flags == MAP_FIXED <==> loc != 0
    ensures c.flags == 0 <==> loc == 0
    ensures c.prot == ProtBits(perm)
    ensures c.addr == loc && c.length == length && c.fd == fd && c.offset == offset
  {
    MmapCall(loc, length, ProtBits(perm), if loc == 0 then 0 else MAP_FIXED, fd, offset)
  }

  /** The classification of `mmap`'s raw return `ret` on a `w`-bit target:
      the top 4095 words are errors, anything else is the mapping's address. */
  function Classify(w: Width, ret: nat, length: nat): (r: Result<Map>)
    requires ret < WordLimit(w)
    ensures r.Err? <==> ret > WordLimit(w) - 0x1000
    ensures r.Err? ==> 1 <= r.error <= 0xFFF && ret + r.error == WordLimit(w)
    ensures r.Ok? ==> r.value == Map(ret, length)
  {
    if ret > WordLimit(w) - 0x1000 then Err(WordLimit(w) - ret) else Ok(Map(ret, length))
  }

  /** A kernel that reports error `e` returns `-e` as a machine word;
      classification gives `e` back, for every code below 4096. */
  lemma ClassifyErrorRoundTrip(w: Width, e: Error, length: nat)
    requires e <= 0xFFF
    ensures Classify(w, WordLimit(w) - e, length) == Err(e)
  {
  }

  /** Read as a signed word, an error return is the negated error code, as
      for every other system call. */
  lemma ClassifyAgreesWithSysret(ret: nat, length: nat)
    requires ret < WordLimit(64) && Classify(64, ret, length).Err?
    ensures FromSysret(ret - WordLimit(64)) == Err(Classify(64, ret, length).error)
  {
  }

  /** `do_map`: the raw return is read as a `usize` and classified. */
  function DoMap(w: Width, fd: int, loc: nat, perm: Perm, offset: U64, length: nat,
                 kernel: MmapCall -> nat): Result<Map>
  {
    Classify(w, kernel(MmapRequest(fd, loc, perm, offset, length)) % WordLimit(w), length)
  }

  /** `().map` and `().map_at`: anonymous maps use fd -1 and offset 0. */
  function MapAnon(w: Width, loc: nat, perm: Perm, length: nat, kernel: MmapCall -> nat): (r: Result<Map>)
    ensures var c := MmapRequest(-1, loc, perm, 0, length);
      && c.fd == -1 && c.offset == 0
      && r == Classify(w, kernel(c) % WordLimit(w), length)
  {
    DoMap(w, -1, loc, perm, 0, length, kernel)
  }

  /** `off_t` to `u64` (`as _`): two's complement wrap-around. */
  function OffToU64(size: int): U64
  {
    size % 0x1_0000_0000_0000_0000
  }

  /** The segment `do_map_file` maps: the one given, or the whole file.
      As written, `unwrap_or` evaluates its default first, so the file is
      always `stat`ed and its size converted, even when a segment is given. */
  function DefaultSegment(w: Width, seg: Option<Segment>, stat: Result<int>): (r: Result<Segment>)
    ensures stat.Err? ==> r == Err(stat.error)
    ensures stat.Ok? && TryToUsize(w, OffToU64(stat.value)).Err? ==> r == Err(EOVERFLOW)
    ensures r.Ok? && seg.Some? ==> r.value == seg.value
    ensures r.Ok? && seg.None? ==> r.value == Segment(0, OffToU64(stat.value))
  {
    match stat
    case Err(e) => Err(e)
    case Ok(size) =>
      match TryToUsize(w, OffToU64(size))
      case Err(e) => Err(e)
      case Ok(n) => if seg.Some? then Ok(seg.value) else Ok(Segment(0, n))
  }

  /** `do_map_file`, as written. `stat` is the outcome of `f.stat()`: the
      file's size as an `off_t`, or an error. */
  function DoMapFile(w: Width, f: File, loc: nat, perm: Perm, seg: Option<Segment>, stat: Result<int>,
                     kernel: MmapCall -> nat): Result<Map>
  {
    match DefaultSegment(w, seg, stat)
    case Err(e) => Err(e)
    case Ok(s) => DoMap(w, f.fd, loc, perm, s.offset, s.length, kernel)
  }

  /** With no segment the whole file is mapped from offset 0, and a size
      that does not fit a `usize` fails with `EOVERFLOW`. */
  lemma WholeFileSegment(w: Width, f: File, loc: nat, perm: Perm, size: int, kernel: MmapCall -> nat)
    ensures var n := OffToU64(size);
      DoMapFile(w, f, loc, perm, None, Ok(size), kernel)
      == if n < WordLimit(w) then DoMap(w, f.fd, loc, perm, 0, n, kernel) else Err(EOVERFLOW)
  {
  }

  /** Counterexample: on a 32-bit target, mapping the first page of an
      8 GiB file fails with `EOVERFLOW` though the segment fits. */
  lemma EagerDefaultRejectsSegment(f: File, kernel: MmapCall -> nat)
    ensures DoMapFile(32, f, 0, READ, Some(Segment(0, 0x1000)), Ok(0x2_0000_0000), kernel) == Err(EOVERFLOW)
  {
  }

  /** The segment chosen lazily: the file is consulted only without one. */
  function DefaultSegmentLazy(w: Width, seg: Option<Segment>, stat: Result<int>): Result<Segment>
  {
    match seg
    case Some(s) => Ok(s)
    case None =>
      match stat
      case Err(e) => Err(e)
      case Ok(size) =>
        match TryToUsize(w, OffToU64(size))
        case Err(e) => Err(e)
        case Ok(n) => Ok(Segment(0, n))
  }

  /** `do_map_file` with the default evaluated lazily. */
  function DoMapFileLazy(w: Width, f: File, loc: nat, perm: Perm, seg: Option<Segment>, stat: Result<int>,
                         kernel: MmapCall -> nat): Result<Map>
  {
    match DefaultSegmentLazy(w, seg, stat)
    case Err(e) => Err(e)
    case Ok(s) => DoMap(w, f.fd, loc, perm, s.offset, s.length, kernel)
  }

  /** Corrected: a given segment is mapped whatever `stat` says; without
      one both versions agree; and wherever the eager version succeeds the
      lazy one gives the same mapping. */
  lemma LazySegmentSpec(w: Width, f: File, loc: nat, perm: Perm, seg: Option<Segment>, stat: Result<int>,
                        kernel: MmapCall -> nat)
    ensures seg.Some? ==> DoMapFileLazy(w, f, loc, perm, seg, stat, kernel)
                          == DoMap(w, f.fd, loc, perm, seg.value.offset, seg.value.length, kernel)
    ensures seg.None? ==> DoMapFileLazy(w, f, loc, perm, seg, stat, kernel)
                          == DoMapFile(w, f, loc, perm, seg, stat, kernel)
    ensures DoMapFile(w, f, loc, perm, seg, stat, kernel).Ok? ==>
              DoMapFileLazy(w, f, loc, perm, seg, stat, kernel) == DoMapFile(w, f, loc, perm, seg, stat, kernel)
  {
  }
}
