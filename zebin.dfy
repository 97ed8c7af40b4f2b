// ZEBinaryBuilder: the decisions it makes while laying out a zebin object
// for an OpenCL program.  The ELF object builder (ZEELFObjectBuilder) and
// the zeInfo kernel record are reduced to the lists the builder appends to:
// the ELF sections, whose ID is the number of sections added before them,
// the ELF symbols, and a kernel's per-thread payload arguments and memory
// buffers.  Sizes are the source's uint32 values; the one subtraction that
// can wrap (AllocSize - InlineData.size()) is written out.
module ZeBinary {
  const U32_MOD: int := 0x1_0000_0000

  type U32 = x: int | 0 <= x < U32_MOD

  /** uint32 subtraction, wrapping below zero. */
  function Sub32(a: U32, b: U32): (r: U32)
    ensures a >= b ==> r == a - b
    ensures a < b ==> r == a - b + U32_MOD
  {
    (a - b) % U32_MOD
  }

  // ---- symbols ----

  /** vISA::GenSymType.  `Unlisted` stands for a value outside the named
    * enumerators, which the switches reach through their default. */
  datatype SymType =
    | S_NOTYPE | S_UNDEF | S_FUNC | S_GLOBAL_VAR | S_GLOBAL_VAR_CONST
    | S_CONST_SAMPLER | S_KERNEL | Unlisted(code: int)

  /** ELF symbol types and bindings (System V ABI, "Symbol Table"). */
  const STT_NOTYPE: nat := 0
  const STT_OBJECT: nat := 1
  const STT_FUNC: nat := 2
  const STB_LOCAL: nat := 0
  const STB_GLOBAL: nat := 1

  /** getSymbolElfType: kernels and functions are code, the three kinds of
    * global data are objects, and everything else has no type. */
  function SymbolElfType(t: SymType): (r: nat)
    ensures r == STT_FUNC <==> t == S_FUNC || t == S_KERNEL
    ensures r == STT_OBJECT <==> t == S_GLOBAL_VAR || t == S_GLOBAL_VAR_CONST || t == S_CONST_SAMPLER
    ensures r != STT_FUNC && r != STT_OBJECT ==> r == STT_NOTYPE
  {
    match t
    case S_NOTYPE => STT_NOTYPE
    case S_UNDEF => STT_NOTYPE
    case S_FUNC | S_KERNEL => STT_FUNC
    case S_GLOBAL_VAR | S_GLOBAL_VAR_CONST | S_CONST_SAMPLER => STT_OBJECT
    case Unlisted(_) => STT_NOTYPE
  }

  /** getSymbolElfBinding: only the kernel's own symbol is local.  An
    * unlisted kind fails an assertion in debug builds and is global
    * otherwise. */
  function SymbolElfBinding(t: SymType): (r: nat)
    ensures r == STB_LOCAL <==> t == S_KERNEL
    ensures r != STB_LOCAL ==> r == STB_GLOBAL
  {
    match t
    case S_KERNEL => STB_LOCAL
    case _ => STB_GLOBAL
  }

  /** A symbol as vISA reports it (vISA::ZESymEntry). */
  datatype ZeSym = ZeSym(name: string, offset: U32, size: U32, symType: SymType)

  /** A symbol as added to the ELF symbol table. */
  datatype ElfSym = ElfSym(name: string, offset: U32, size: U32, binding: nat, elfType: nat, sectId: int)

  /** The symbol lists of one compiled SIMD variant. */
  datatype SymbolLists = SymbolLists(
    local: seq<ZeSym>, functions: seq<ZeSym>, globalConst: seq<ZeSym>,
    globalStringConst: seq<ZeSym>, global: seq<ZeSym>, sampler: seq<ZeSym>)

  /** The program compiled at each SIMD width (SKernelProgram). */
  datatype KernelProgram = KernelProgram(simd1: SymbolLists, simd8: SymbolLists, simd16: SymbolLists, simd32: SymbolLists)

  /** The lists of the compiled SIMD size: 8, 16 or 32, and SIMD1's for any
    * other size. */
  function SymbolsFor(simdSize: int, p: KernelProgram): (r: SymbolLists)
    ensures simdSize !in {8, 16, 32} ==> r == p.simd1
  {
    if simdSize == 8 then p.simd8
    else if simdSize == 16 then p.simd16
    else if simdSize == 32 then p.simd32
    else p.simd1
  }

  /** The ELF symbol for s, placed in section sect. */
  function ElfSymOf(s: ZeSym, sect: int): ElfSym {
    ElfSym(s.name, s.offset, s.size, SymbolElfBinding(s.symType), SymbolElfType(s.symType), sect)
  }

  /** The section an addSymbols loop gives a symbol of a list whose
    * section is sect: none (-1) for an undefined symbol, except in the
    * loop over local symbols, which does not look. */
  function SectFor(s: ZeSym, sect: int, undefUnplaced: bool): int {
    if undefUnplaced && s.symType == S_UNDEF then -1 else sect
  }

  /** The ELF symbols one addSymbols loop adds for a list, in order. */
  function PlacedSymbols(list: seq<ZeSym>, sect: int, undefUnplaced: bool): (r: seq<ElfSym>)
    ensures |r| == |list|
  {
    seq(|list|, i requires 0 <= i < |list| => ElfSymOf(list[i], SectFor(list[i], sect, undefUnplaced)))
  }

  /** Everything addSymbols adds, in the order of its loops: the local
    * symbols in the kernel's text section, then the function, constant,
    * string-constant and global symbols, each in its list's section unless
    * undefined.  Sampler symbols are not added. */
  function SymbolTable(lists: SymbolLists, textSect: int, constSect: int, stringSect: int, globalSect: int): seq<ElfSym> {
    PlacedSymbols(lists.local, textSect, false) +
    PlacedSymbols(lists.functions, textSect, true) +
    PlacedSymbols(lists.globalConst, constSect, true) +
    PlacedSymbols(lists.globalStringConst, stringSect, true) +
    PlacedSymbols(lists.global, globalSect, true)
  }

  /** The symbols addSymbols takes, in the order it takes them. */
  function AllSymbols(lists: SymbolLists): seq<ZeSym> {
    lists.local + lists.functions + lists.globalConst + lists.globalStringConst + lists.global
  }

  /** The symbol table holds one entry per symbol, in order, with the
    * symbol's name, offset, size, binding and type; an entry is unplaced
    * exactly when it is an undefined non-local symbol (the sections
    * themselves being real). */
  lemma {:induction false} SymbolTableEntries(lists: SymbolLists, textSect: int, constSect: int, stringSect: int, globalSect: int)
    requires textSect != -1 && constSect != -1 && stringSect != -1 && globalSect != -1
    ensures var t, all := SymbolTable(lists, textSect, constSect, stringSect, globalSect), AllSymbols(lists);
      |t| == |all| &&
      forall i :: 0 <= i < |t| ==>
        t[i].name == all[i].name && t[i].offset == all[i].offset && t[i].size == all[i].size &&
        t[i].binding == SymbolElfBinding(all[i].symType) && t[i].elfType == SymbolElfType(all[i].symType) &&
        (t[i].sectId == -1 <==> i >= |lists.local| && all[i].symType == S_UNDEF)
  {
    var t, all := SymbolTable(lists, textSect, constSect, stringSect, globalSect), AllSymbols(lists);
    var n0 := |lists.local|;
    var n1 := n0 + |lists.functions|;
    var n2 := n1 + |lists.globalConst|;
    var n3 := n2 + |lists.globalStringConst|;
    forall i | 0 <= i < |t|
      ensures t[i].name == all[i].name && t[i].offset == all[i].offset && t[i].size == all[i].size
      ensures t[i].binding == SymbolElfBinding(all[i].symType) && t[i].elfType == SymbolElfType(all[i].symType)
      ensures t[i].sectId == -1 <==> i >= n0 && all[i].symType == S_UNDEF
    {
      if i < n0 {
        assert t[i] == ElfSymOf(lists.local[i], textSect) && all[i] == lists.local[i];
      } else if i < n1 {
        assert t[i] == PlacedSymbols(lists.functions, textSect, true)[i - n0];
        assert all[i] == lists.functions[i - n0];
      } else if i < n2 {
        assert t[i] == PlacedSymbols(lists.globalConst, constSect, true)[i - n1];
        assert all[i] == lists.globalConst[i - n1];
      } else if i < n3 {
        assert t[i] == PlacedSymbols(lists.globalStringConst, stringSect, true)[i - n2];
        assert all[i] == lists.globalStringConst[i - n2];
      } else {
        assert t[i] == PlacedSymbols(lists.global, globalSect, true)[i - n3];
        assert all[i] == lists.global[i - n3];
      }
    }
  }

  /** Only kernel symbols are bound locally, and they are code. */
  lemma LocalSymbolsAreKernels(lists: SymbolLists, textSect: int, constSect: int, stringSect: int, globalSect: int)
    ensures var t := SymbolTable(lists, textSect, constSect, stringSect, globalSect);
      forall e :: e in t && e.binding == STB_LOCAL ==> e.elfType == STT_FUNC
  {
    var t := SymbolTable(lists, textSect, constSect, stringSect, globalSect);
    forall e | e in t && e.binding == STB_LOCAL
      ensures e.elfType == STT_FUNC
    {
      var i :| 0 <= i < |t| && t[i] == e;
      SymbolTableEntry(lists, textSect, constSect, stringSect, globalSect, i);
    }
  }

  /** Entry i of the symbol table is the ELF symbol of symbol i. */
  lemma SymbolTableEntry(lists: SymbolLists, textSect: int, constSect: int, stringSect: int, globalSect: int, i: nat)
    requires i < |AllSymbols(lists)|
    ensures var t, all := SymbolTable(lists, textSect, constSect, stringSect, globalSect), AllSymbols(lists);
      |t| == |all| && exists sect :: t[i] == ElfSymOf(all[i], sect)
  {
    var t, all := SymbolTable(lists, textSect, constSect, stringSect, globalSect), AllSymbols(lists);
    var n0 := |lists.local|;
    var n1 := n0 + |lists.functions|;
    var n2 := n1 + |lists.globalConst|;
    var n3 := n2 + |lists.globalStringConst|;
    if i < n0 {
      assert t[i] == ElfSymOf(all[i], textSect);
    } else if i < n1 {
      assert t[i] == PlacedSymbols(lists.functions, textSect, true)[i - n0];
      assert t[i] == ElfSymOf(all[i], SectFor(all[i], textSect, true));
    } else if i < n2 {
      assert t[i] == PlacedSymbols(lists.globalConst, constSect, true)[i - n1];
      assert t[i] == ElfSymOf(all[i], SectFor(all[i], constSect, true));
    } else if i < n3 {
      assert t[i] == PlacedSymbols(lists.globalStringConst, stringSect, true)[i - n2];
      assert t[i] == ElfSymOf(all[i], SectFor(all[i], stringSect, true));
    } else {
      assert t[i] == PlacedSymbols(lists.global, globalSect, true)[i - n3];
      assert t[i] == ElfSymOf(all[i], SectFor(all[i], globalSect, true));
    }
  }

  // ---- program-scope data ----

  /** An initialized constant or global buffer (InitConstantAnnotation,
    * InitGlobalAnnotation): the initial bytes, then zeros up to AllocSize. */
  datatype BufferAnnotation = BufferAnnotation(inlineData: seq<bv8>, allocSize: U32, alignment: U32)

  /** The size of the inline data as the source takes it, a uint32. */
  function DataSize(ca: BufferAnnotation): U32 {
    |ca.inlineData| % U32_MOD
  }

  /** The zero-initialized tail, AllocSize - dataSize in uint32. */
  function BssSize(ca: BufferAnnotation): U32 {
    Sub32(ca.allocSize, DataSize(ca))
  }

  /** An ELF section the builder adds: data (addSectionData: the bytes,
    * how many of them, zero padding after them, alignment) or bss
    * (addSectionBss: a size and alignment). */
  datatype Section =
    | Data(name: string, bytes: seq<bv8>, size: U32, padding: U32, alignment: U32)
    | Bss(name: string, bssSize: U32, alignment: U32)

  /** The bytes a section occupies in the loaded buffer. */
  function Footprint(s: Section): nat {
    match s
    case Data(_, _, size, padding, _) => size + padding
    case Bss(_, size, _) => size
  }

  function TotalFootprint(ss: seq<Section>): nat {
    if ss == [] then 0 else Footprint(ss[0]) + TotalFootprint(ss[1..])
  }

  /** The sections one buffer with a nonzero AllocSize becomes.  When
    * zero-initialized data goes to bss: a data section for the inline data
    * if there is any, and a bss section for the rest if there is any, the
    * alignment on the bss section alone when both exist.  Otherwise one
    * data section padded with the zeros. */
  function BufferSections(name: string, ca: BufferAnnotation, zeroInitInBss: bool): (r: seq<Section>)
    requires ca.allocSize != 0
    ensures 0 < |r| <= 2
    ensures TotalFootprint(r) == DataSize(ca) + BssSize(ca)
    ensures ca.allocSize >= DataSize(ca) ==> TotalFootprint(r) == ca.allocSize
    ensures forall i :: 0 <= i < |r| - 1 ==> r[i].alignment == 0
    ensures r[|r| - 1].alignment == ca.alignment
    ensures r[0].Data? <==> !zeroInitInBss || DataSize(ca) != 0
    ensures (exists i :: 0 <= i < |r| && r[i].Bss?) <==> zeroInitInBss && BssSize(ca) != 0
  {
    var dataSize, bssSize := DataSize(ca), BssSize(ca);
    if zeroInitInBss then
      var data := if dataSize != 0 then [Data(name, ca.inlineData, dataSize, 0, if bssSize != 0 then 0 else ca.alignment)] else [];
      var bss := if bssSize != 0 then [Bss(name, bssSize, ca.alignment)] else [];
      assert TotalFootprint(bss) == bssSize;
      assert TotalFootprint(data + bss) == dataSize + bssSize by {
        if data != [] {
          assert (data + bss)[1..] == bss;
        }
      }
      data + bss
    else
      [Data(name, ca.inlineData, dataSize, bssSize, ca.alignment)]
  }

  /** The sections addGlobalConstants adds: the general constants, when
    * there are any with a nonzero size, then the string literals, when
    * there is a second buffer with inline data. */
  function ConstSections(cas: seq<BufferAnnotation>, zeroInitInBss: bool): seq<Section> {
    (if |cas| > 0 && cas[0].allocSize != 0 then BufferSections("const", cas[0], zeroInitInBss) else []) +
    (if |cas| >= 2 && |cas[1].inlineData| > 0 then [StringSection(cas[1])] else [])
  }

  /** The string-literal section: always data, padded to AllocSize. */
  function StringSection(ca: BufferAnnotation): Section {
    Data("const.string", ca.inlineData, DataSize(ca), BssSize(ca), ca.alignment)
  }

  // ---- kernel-scope info ----

  datatype ArgType = PackedLocalIds | LocalId
  /** A per-thread payload argument: its type, offset and size in bytes. */
  datatype PayloadArg = PayloadArg(argType: ArgType, offset: int, size: int)

  /** n rounded up to a multiple of the GRF size. */
  function RoundUpToGrf(n: nat, grfSize: nat): (r: nat)
    requires grfSize > 0
    ensures r % grfSize == 0 && n <= r < n + grfSize
  {
    DivMod(n, grfSize);
    var q := n / grfSize;
    if n % grfSize == 0 then n
    else
      assert (q + 1) * grfSize == q * grfSize + grfSize;
      MultipleMod(q + 1, grfSize);
      (q + 1) * grfSize
  }

  lemma DivMod(n: nat, g: nat)
    requires g > 0
    ensures n == (n / g) * g + n % g && 0 <= n % g < g
  {
  }

  /** A multiple of g leaves no remainder. */
  lemma MultipleMod(k: nat, g: nat)
    requires g > 0
    ensures (k * g) % g == 0
  {
    var d := (k * g) / g;
    DivMod(k * g, g);
    Distrib(k, d, g);
    if k > d {
      AtLeastOnce(k - d, g);
    } else if k < d {
      AtLeastOnce(d - k, g);
      Distrib(d, k, g);
    }
  }

  lemma Distrib(a: int, b: int, g: int)
    ensures (a - b) * g == a * g - b * g
  {
  }

  lemma AtLeastOnce(e: int, g: int)
    requires e >= 1 && g > 0
    ensures e * g >= g
  {
  }

  /** How many of the x, y and z local IDs the kernel uses. */
  function IdCount(x: bool, y: bool, z: bool): (r: nat)
    ensures r <= 3 && (r == 0 <==> !x && !y && !z)
  {
    (if x then 1 else 0) + (if y then 1 else 0) + (if z then 1 else 0)
  }

  /** addLocalIds' argument: SIMD1 (CM) kernels take the three IDs packed
    * in six bytes; otherwise each used ID takes two bytes per lane, rounded
    * up to whole GRFs. */
  function LocalIdsArg(simdSize: nat, grfSize: nat, x: bool, y: bool, z: bool): (a: PayloadArg)
    requires simdSize == 1 || grfSize > 0
    ensures a.offset == 0
    ensures simdSize == 1 ==> a == PayloadArg(PackedLocalIds, 0, 6)
    ensures simdSize != 1 ==> a.argType == LocalId && a.size == IdCount(x, y, z) * RoundUpToGrf(2 * simdSize, grfSize)
    ensures simdSize != 1 ==>
      a.size % grfSize == 0 &&
      IdCount(x, y, z) * (2 * simdSize) <= a.size <= IdCount(x, y, z) * (2 * simdSize + grfSize - 1)
  {
    if simdSize == 1 then PayloadArg(PackedLocalIds, 0, 6)
    else
      var perId := RoundUpToGrf(2 * simdSize, grfSize);
      var n := IdCount(x, y, z);
      LocalIdSize(perId, grfSize, n);
      ScaleByIdCount(n, 2 * simdSize, perId, 2 * simdSize + grfSize - 1);
      PayloadArg(LocalId, 0, n * perId)
  }

  /** n IDs of a GRF-aligned size take a GRF-aligned size. */
  lemma LocalIdSize(perId: nat, grfSize: nat, n: nat)
    requires grfSize > 0 && perId % grfSize == 0 && n <= 3
    ensures (n * perId) % grfSize == 0
  {
    DivMod(perId, grfSize);
    var c := perId / grfSize;
    assert n * perId == (c * n) * grfSize;
    MultipleMod(c * n, grfSize);
  }

  /** Bounds on the per-ID size scale to bounds on n IDs. */
  lemma ScaleByIdCount(n: nat, lo: nat, m: nat, hi: nat)
    requires n <= 3 && lo <= m <= hi
    ensures n * lo <= n * m <= n * hi
  {
    if n == 0 {
    } else if n == 1 {
    } else if n == 2 {
    } else {
      assert n == 3;
    }
  }

  datatype MemUsage = SingleSpace | SpillFillSpace | PrivateSpace
  /** A per-thread memory buffer: a scratch slot, or global memory sized per
    * SIMT thread. */
  datatype MemBuffer =
    | Scratch(usage: MemUsage, slot: nat, size: U32)
    | PerSimtGlobal(usage: MemUsage, size: U32)

  function TotalSize(bs: seq<MemBuffer>): nat {
    if bs == [] then 0 else bs[0].size + TotalSize(bs[1..])
  }

  /** The execution environment's memory needs (SExecutionEnvironment). */
  datatype ExecEnv = ExecEnv(perThreadScratchSpace: U32, perThreadScratchSpaceSlot1: U32,
                             perThreadPrivateOnStatelessSize: U32)

  /** addMemoryBuffer's buffers: scratch slot 0 alone holds everything when
    * it is the only need; otherwise spill/fill in slot 0, privates in slot
    * 1 and privates on global memory, each only when needed. */
  function MemoryBuffers(e: ExecEnv): (r: seq<MemBuffer>)
    ensures var s0, s1, g := e.perThreadScratchSpace, e.perThreadScratchSpaceSlot1, e.perThreadPrivateOnStatelessSize;
      (s0 != 0 && s1 == 0 && g == 0 ==> r == [Scratch(SingleSpace, 0, s0)]) &&
      TotalSize(r) == s0 + s1 + g &&
      (forall i :: 0 <= i < |r| ==> r[i].size != 0) &&
      (forall i, j :: 0 <= i < j < |r| && r[i].Scratch? && r[j].Scratch? ==> r[i].slot < r[j].slot) &&
      (|r| == 0 <==> s0 == 0 && s1 == 0 && g == 0)
  {
    var s0, s1, g := e.perThreadScratchSpace, e.perThreadScratchSpaceSlot1, e.perThreadPrivateOnStatelessSize;
    if s0 != 0 && s1 == 0 && g == 0 then [Scratch(SingleSpace, 0, s0)]
    else
      var a := if s0 != 0 then [Scratch(SpillFillSpace, 0, s0)] else [];
      var b := if s1 != 0 then [Scratch(PrivateSpace, 1, s1)] else [];
      var c := if g != 0 then [PerSimtGlobal(PrivateSpace, g)] else [];
      TotalSizeAppend(a, b);
      TotalSizeAppend(a + b, c);
      a + b + c
  }

  lemma {:induction false} TotalSizeAppend(a: seq<MemBuffer>, b: seq<MemBuffer>)
    ensures TotalSize(a + b) == TotalSize(a) + TotalSize(b)
  {
    if a == [] {
      assert a + b == b;
    } else {
      assert (a + b)[0] == a[0] && (a + b)[1..] == a[1..] + b;
      TotalSizeAppend(a[1..], b);
    }
  }

  /** The kernel's zeInfo record, as far as the builder appends to it. */
  class ZeInfoKernel {
    var perThreadPayloadArguments: seq<PayloadArg>
    var perThreadMemoryBuffers: seq<MemBuffer>

    constructor ()
      ensures perThreadPayloadArguments == [] && perThreadMemoryBuffers == []
    {
      perThreadPayloadArguments := [];
      perThreadMemoryBuffers := [];
    }
  }

  class ZeBinaryBuilder {
    /** IGC_IS_FLAG_ENABLED(AllocateZeroInitializedVarsInBss). */
    const zeroInitInBss: bool
    /** The ELF object's sections and symbol table. */
    var sections: seq<Section>
    var symbols: seq<ElfSym>
    /** The sections global, constant and string-literal symbols refer to. */
    var globalSectId: int
    var globalConstSectId: int
    var constStringSectId: int

    /** The constructor adds the program-scope sections of the program's
      * constant buffers `cas` and global buffers `gas`.  The section IDs
      * start at `unset`, the header's initial value, which is not part of
      * this model. */
    constructor (zeroInitInBss: bool, unset: int, cas: seq<BufferAnnotation>, gas: seq<BufferAnnotation>)
      ensures this.zeroInitInBss == zeroInitInBss && symbols == []
      ensures sections == ConstSections(cas, zeroInitInBss) +
        if |gas| > 0 && gas[0].allocSize != 0 then BufferSections("global", gas[0], zeroInitInBss) else []
      ensures globalConstSectId == if |cas| > 0 && cas[0].allocSize != 0 then 0 else unset
      ensures constStringSectId ==
        if |cas| >= 2 && |cas[1].inlineData| > 0 then |ConstSections(cas, zeroInitInBss)| - 1 else unset
      ensures globalSectId ==
        if |gas| > 0 && gas[0].allocSize != 0 then |ConstSections(cas, zeroInitInBss)| else unset
    {
      this.zeroInitInBss := zeroInitInBss;
      sections := [];
      symbols := [];
      globalSectId := unset;
      globalConstSectId := unset;
      constStringSectId := unset;
      new;
      AddProgramScopeInfo(cas, gas);
    }

    /** addSectionData: the new section's ID. */
    method AddSectionData(name: string, data: seq<bv8>, size: U32, padding: U32, alignment: U32) returns (id: int)
      modifies this`sections
      ensures sections == old(sections) + [Data(name, data, size, padding, alignment)]
      ensures id == |old(sections)|
    {
      id := |sections|;
      sections := sections + [Data(name, data, size, padding, alignment)];
    }

    /** addSectionBss: the new section's ID. */
    method AddSectionBss(name: string, size: U32, alignment: U32) returns (id: int)
      modifies this`sections
      ensures sections == old(sections) + [Bss(name, size, alignment)]
      ensures id == |old(sections)|
    {
      id := |sections|;
      sections := sections + [Bss(name, size, alignment)];
    }

    /** The data/bss split of addGlobals and addGlobalConstants: the
      * sections of one buffer, and the ID its symbols refer to, which is
      * that of the first section added (the data section when there is
      * one). */
    method AddBuffer(name: string, ca: BufferAnnotation) returns (id: int)
      requires ca.allocSize != 0
      modifies this`sections
      ensures sections == old(sections) + BufferSections(name, ca, zeroInitInBss)
      ensures id == |old(sections)|
    {
      var dataSize, bssSize := DataSize(ca), BssSize(ca);
      if zeroInitInBss {
        var normalId, bssId := -1, -1;
        if dataSize != 0 {
          var normalAlignment := if bssSize != 0 then 0 else ca.alignment;
          normalId := AddSectionData(name, ca.inlineData, dataSize, 0, normalAlignment);
        }
        if bssSize != 0 {
          bssId := AddSectionBss(name, bssSize, ca.alignment);
        }
        id := if dataSize != 0 then normalId else bssId;
      } else {
        id := AddSectionData(name, ca.inlineData, dataSize, bssSize, ca.alignment);
      }
    }

    /** addGlobalConstants: the general constants' sections, then the string
      * literals' section. */
    method AddGlobalConstants(cas: seq<BufferAnnotation>)
      modifies this`sections, this`globalConstSectId, this`constStringSectId
      ensures sections == old(sections) + ConstSections(cas, zeroInitInBss)
      ensures globalConstSectId ==
        if |cas| > 0 && cas[0].allocSize != 0 then |old(sections)| else old(globalConstSectId)
      ensures constStringSectId ==
        if |cas| >= 2 && |cas[1].inlineData| > 0 then |sections| - 1 else old(constStringSectId)
      ensures |cas| >= 2 && cas[0].allocSize != 0 && |cas[1].inlineData| > 0 ==>
        globalConstSectId < constStringSectId
    {
      if |cas| == 0 {
        return;
      }
      if cas[0].allocSize != 0 {
        globalConstSectId := AddBuffer("const", cas[0]);
      }
      if |cas| < 2 {
        return;
      }
      var caString := cas[1];
      if |caString.inlineData| > 0 {
        var dataSize := DataSize(caString);
        constStringSectId := AddSectionData("const.string", caString.inlineData, dataSize,
                                            Sub32(caString.allocSize, dataSize), caString.alignment);
      }
    }

    /** addGlobals: the sections of the (single) global buffer, when its
      * size is not zero; global symbols then refer to its first section. */
    method AddGlobals(gas: seq<BufferAnnotation>)
      modifies this`sections, this`globalSectId
      ensures sections == old(sections) +
        if |gas| > 0 && gas[0].allocSize != 0 then BufferSections("global", gas[0], zeroInitInBss) else []
      ensures globalSectId == if |gas| > 0 && gas[0].allocSize != 0 then |old(sections)| else old(globalSectId)
      ensures globalSectId != old(globalSectId) ==>
        0 <= globalSectId < |sections| && (sections[globalSectId].Data? <==> !zeroInitInBss || DataSize(gas[0]) != 0)
    {
      if |gas| == 0 {
        return;
      }
      var ca := gas[0];
      if ca.allocSize == 0 {
        return;
      }
      globalSectId := AddBuffer("global", ca);
    }

    /** addProgramScopeInfo: constants first, then globals. */
    method AddProgramScopeInfo(cas: seq<BufferAnnotation>, gas: seq<BufferAnnotation>)
      modifies this`sections, this`globalSectId, this`globalConstSectId, this`constStringSectId
      ensures sections == old(sections) + ConstSections(cas, zeroInitInBss) +
        if |gas| > 0 && gas[0].allocSize != 0 then BufferSections("global", gas[0], zeroInitInBss) else []
      ensures globalConstSectId ==
        if |cas| > 0 && cas[0].allocSize != 0 then |old(sections)| else old(globalConstSectId)
      ensures constStringSectId ==
        if |cas| >= 2 && |cas[1].inlineData| > 0 then |old(sections)| + |ConstSections(cas, zeroInitInBss)| - 1
        else old(constStringSectId)
      ensures globalSectId ==
        if |gas| > 0 && gas[0].allocSize != 0 then |old(sections)| + |ConstSections(cas, zeroInitInBss)|
        else old(globalSectId)
    {
      AddGlobalConstants(cas);
      AddGlobals(gas);
    }

    /** addSymbols: the symbols of the compiled SIMD size, each list in its
      * section. */
    method AddSymbols(kernelSectId: int, simdSize: int, program: KernelProgram)
      modifies this`symbols
      ensures symbols == old(symbols) +
        SymbolTable(SymbolsFor(simdSize, program), kernelSectId, globalConstSectId, constStringSectId, globalSectId)
    {
      var lists := SymbolsFor(simdSize, program);
      var constSect, stringSect, globalSect := globalConstSectId, constStringSectId, globalSectId;
      AddSymbolList(lists.local, kernelSectId, false);
      AddSymbolList(lists.functions, kernelSectId, true);
      AddDataSymbols(lists, constSect, stringSect, globalSect);
    }

    /** The last three loops of addSymbols: symbols defined in the constant,
      * string-literal and global sections. */
    method AddDataSymbols(lists: SymbolLists, constSect: int, stringSect: int, globalSect: int)
      modifies this`symbols
      ensures symbols == old(symbols) + PlacedSymbols(lists.globalConst, constSect, true) +
        PlacedSymbols(lists.globalStringConst, stringSect, true) + PlacedSymbols(lists.global, globalSect, true)
    {
      AddSymbolList(lists.globalConst, constSect, true);
      AddSymbolList(lists.globalStringConst, stringSect, true);
      AddSymbolList(lists.global, globalSect, true);
    }

    /** One of addSymbols' loops: mBuilder.addSymbol for each symbol of the
      * list, in order. */
    method AddSymbolList(list: seq<ZeSym>, sect: int, undefUnplaced: bool)
      modifies this`symbols
      ensures symbols == old(symbols) + PlacedSymbols(list, sect, undefUnplaced)
    {
      for i := 0 to |list|
        invariant symbols == old(symbols) + PlacedSymbols(list[..i], sect, undefUnplaced)
      {
        var sym := list[i];
        symbols := symbols + [ElfSym(sym.name, sym.offset, sym.size, SymbolElfBinding(sym.symType),
                                     SymbolElfType(sym.symType), SectFor(sym, sect, undefUnplaced))];
        assert PlacedSymbols(list[..i + 1], sect, undefUnplaced) ==
          PlacedSymbols(list[..i], sect, undefUnplaced) + [ElfSymOf(sym, SectFor(sym, sect, undefUnplaced))];
      }
      assert list[..|list|] == list;
    }

    /** addLocalIds: the local-ID payload argument. */
    method AddLocalIds(simdSize: nat, grfSize: nat, x: bool, y: bool, z: bool, k: ZeInfoKernel)
      requires simdSize == 1 || grfSize > 0
      modifies k`perThreadPayloadArguments
      ensures k.perThreadPayloadArguments == old(k.perThreadPayloadArguments) + [LocalIdsArg(simdSize, grfSize, x, y, z)]
    {
      k.perThreadPayloadArguments := k.perThreadPayloadArguments + [LocalIdsArg(simdSize, grfSize, x, y, z)];
    }

    /** addMemoryBuffer: the kernel's per-thread memory buffers. */
    method AddMemoryBuffer(e: ExecEnv, k: ZeInfoKernel)
      modifies k`perThreadMemoryBuffers
      ensures k.perThreadMemoryBuffers == old(k.perThreadMemoryBuffers) + MemoryBuffers(e)
    {
      var scratch0 := e.perThreadScratchSpace;
      var scratch1 := e.perThreadScratchSpaceSlot1;
      var privateOnGlobal := e.perThreadPrivateOnStatelessSize;
      if scratch0 != 0 && scratch1 == 0 && privateOnGlobal == 0 {
        k.perThreadMemoryBuffers := k.perThreadMemoryBuffers + [Scratch(SingleSpace, 0, scratch0)];
        return;
      }
      if scratch0 != 0 {
        k.perThreadMemoryBuffers := k.perThreadMemoryBuffers + [Scratch(SpillFillSpace, 0, scratch0)];
      }
      if scratch1 != 0 {
        k.perThreadMemoryBuffers := k.perThreadMemoryBuffers + [Scratch(PrivateSpace, 1, scratch1)];
      }
      if privateOnGlobal != 0 {
        k.perThreadMemoryBuffers := k.perThreadMemoryBuffers + [PerSimtGlobal(PrivateSpace, privateOnGlobal)];
      }
    }
  }
}
