/** Section headers, the linked list of string tables built from them, and the searches over it. */
module Elf {
  import opened Words
  import opened Wrappers

  const SHT_SYMTAB := 2
  const SHT_STRTAB := 3
  const SHT_DYNSYM := 11

  datatype Class = ELFCLASS32 | ELFCLASS64

  datatype Shdr = Shdr(name: int, kind: int, addr: int, offset: int, size: int, link: int)

  /** What `elf_open` and `libelf` give: the file's bytes, header counts and section headers. */
  datatype File = File(bytes: seq<byte>, clazz: Class, phnum: int, shdr: seq<Shdr>, shstrndx: int)

  datatype StrTab = Nil | Cons(id: int, data: seq<byte>, next: StrTab)

  datatype SymTab = SymTab(count: int, strings: seq<byte>, entries: seq<byte>)

  /** `malloc(size)` followed by `pread(fd, _, size, offset) == size`. */
  function FullRead(bytes: seq<byte>, size: int, offset: int): Option<seq<byte>> {
    if size < 0 || offset < 0 then None
    else if size == 0 then Some([])
    else if offset + size <= |bytes| then Some(bytes[offset..offset + size])
    else None
  }

  function Section(f: File, i: nat): Option<seq<byte>>
    requires i < |f.shdr|
  {
    FullRead(f.bytes, f.shdr[i].size, f.shdr[i].offset)
  }

  /** What can be read of a section: the range its header gives, when the file has it; nothing, when that is empty. */
  predicate InFile(f: File, i: nat)
    requires i < |f.shdr|
  {
    var t := f.shdr[i];
    0 <= t.offset && 0 <= t.size && (t.size == 0 || t.offset + t.size <= |f.bytes|)
  }

  /** `data` is the section's own bytes. */
  ghost predicate IsSection(f: File, i: nat, data: seq<byte>)
    requires i < |f.shdr|
  {
    && InFile(f, i) && |data| == f.shdr[i].size
    && forall j :: 0 <= j < |data| ==> data[j] == f.bytes[f.shdr[i].offset + j]
  }

  lemma SectionIsRead(f: File, i: nat)
    requires i < |f.shdr|
    ensures Section(f, i).Some? <==> InFile(f, i)
    ensures Section(f, i).Some? ==> IsSection(f, i, Section(f, i).value)
  {
  }

  /** The list after the first `n` section headers; None when some string table cannot be read. */
  function StrTabs(f: File, n: nat): Option<StrTab>
    requires n <= |f.shdr|
  {
    if n == 0 then Some(Nil)
    else match StrTabs(f, n - 1)
         case None => None
         case Some(tab) =>
           if f.shdr[n - 1].kind != SHT_STRTAB then Some(tab)
           else match Section(f, n - 1)
                case None => None
                case Some(data) => Some(Cons(n - 1, data, tab))
  }

  function Find(tab: StrTab, id: int): Option<seq<byte>> {
    match tab
    case Nil => None
    case Cons(i, data, next) => if i == id then Some(data) else Find(next, id)
  }

  predicate IdsBelow(tab: StrTab, bound: int) {
    match tab
    case Nil => true
    case Cons(i, _, next) => 0 <= i < bound && IdsBelow(next, i)
  }

  predicate IsStrTab(f: File, id: int) {
    0 <= id < |f.shdr| && f.shdr[id].kind == SHT_STRTAB
  }

  /**
   The list agrees with the section table: ids strictly decrease, and a search succeeds
   exactly at the string-table sections, where it gives that section's bytes.
   */
  lemma {:induction false} ListAgreesWithTable(f: File, n: nat, id: int)
    requires n <= |f.shdr| && StrTabs(f, n).Some?
    ensures IdsBelow(StrTabs(f, n).value, n)
    ensures Find(StrTabs(f, n).value, id)
         == if id < n && IsStrTab(f, id) then Section(f, id) else None
    ensures id < n && IsStrTab(f, id) ==> Section(f, id).Some?
  {
    if n > 0 {
      ListAgreesWithTable(f, n - 1, id);
      IdsBelowMore(StrTabs(f, n - 1).value, n - 1);
    }
  }

  lemma IdsBelowMore(tab: StrTab, bound: int)
    requires IdsBelow(tab, bound)
    ensures IdsBelow(tab, bound + 1)
  {
  }

  /** Loading the tables fails exactly when the bytes of some string-table section are missing. */
  lemma {:induction false} LoadFailsIffUnreadable(f: File, n: nat)
    requires n <= |f.shdr|
    ensures StrTabs(f, n).None? <==> exists i: nat :: i < n && IsStrTab(f, i) && Section(f, i).None?
  {
    if n > 0 {
      LoadFailsIffUnreadable(f, n - 1);
    }
  }

  function FirstOfKind(f: File, kind: int, i: nat): (k: nat)
    requires i <= |f.shdr|
    ensures i <= k <= |f.shdr|
    ensures k < |f.shdr| ==> f.shdr[k].kind == kind
    ensures forall j :: i <= j < k ==> f.shdr[j].kind != kind
    decreases |f.shdr| - i
  {
    if i == |f.shdr| || f.shdr[i].kind == kind then i else FirstOfKind(f, kind, i + 1)
  }

  function SymSize(clazz: Class): int {
    if clazz == ELFCLASS32 then 16 else 24
  }

  /** The table for the first section of `kind`, given the loaded string tables. */
  function Symbols(f: File, tab: StrTab, kind: int): Option<SymTab> {
    var k := FirstOfKind(f, kind, 0);
    if k == |f.shdr| then None
    else match (Find(tab, f.shdr[k].link), Section(f, k))
         case (Some(strings), Some(entries)) => Some(SymTab(f.shdr[k].size / SymSize(f.clazz), strings, entries))
         case _ => None
  }

  /** ".text" and its terminating zero. */
  const TEXT_NAME: seq<byte> := [0x2e, 0x74, 0x65, 0x78, 0x74, 0]

  predicate NamedText(names: seq<byte>, at: int) {
    0 <= at && at + |TEXT_NAME| <= |names| && names[at..at + |TEXT_NAME|] == TEXT_NAME
  }

  function FirstText(f: File, names: seq<byte>, i: nat): (k: nat)
    requires i <= |f.shdr|
    ensures i <= k <= |f.shdr|
    ensures k < |f.shdr| ==> NamedText(names, f.shdr[k].name)
    ensures forall j :: i <= j < k ==> !NamedText(names, f.shdr[j].name)
    decreases |f.shdr| - i
  {
    if i == |f.shdr| || NamedText(names, f.shdr[i].name) then i else FirstText(f, names, i + 1)
  }

  /** The index of the section `load_prog` settles on, when every step before it succeeds. */
  function TextIndex(f: File): Option<nat> {
    if f.phnum <= 0 || |f.shdr| == 0 then None
    else match StrTabs(f, |f.shdr|)
         case None => None
         case Some(tab) =>
           match Find(tab, f.shstrndx)
           case None => None
           case Some(names) =>
             var k := FirstText(f, names, 0);
             if k < |f.shdr| then Some(k) else None
  }

  /** `load_prog` accepts a file iff its tables are readable and name a `.text` section; it takes the first. */
  lemma TextIndexExact(f: File)
    ensures TextIndex(f).Some? <==>
              && f.phnum > 0
              && (forall i: nat :: i < |f.shdr| && IsStrTab(f, i) ==> Section(f, i).Some?)
              && IsStrTab(f, f.shstrndx)
              && exists k :: 0 <= k < |f.shdr| && NamedText(Section(f, f.shstrndx).value, f.shdr[k].name)
    ensures TextIndex(f).Some? ==>
              && TextIndex(f).value < |f.shdr|
              && NamedText(Section(f, f.shstrndx).value, f.shdr[TextIndex(f).value].name)
              && forall j :: 0 <= j < TextIndex(f).value ==>
                   !NamedText(Section(f, f.shstrndx).value, f.shdr[j].name)
  {
    LoadFailsIffUnreadable(f, |f.shdr|);
    if StrTabs(f, |f.shdr|).Some? {
      ListAgreesWithTable(f, |f.shdr|, f.shstrndx);
    }
  }

  /** The open ELF file with its lazily loaded tables. */
  class Handle {
    const file: File
    var strtab: StrTab
    var sym: Option<SymTab>
    var dsym: Option<SymTab>

    constructor (file: File)
      ensures this.file == file && strtab == Nil && sym == None && dsym == None
    {
      this.file := file;
      strtab, sym, dsym := Nil, None, None;
    }

    /** Whatever has been cached is what loading it again would give. */
    ghost predicate Valid()
      reads this
    {
      && (strtab != Nil ==> StrTabs(file, |file.shdr|) == Some(strtab))
      && (sym.Some? ==> strtab != Nil && sym == Symbols(file, strtab, SHT_SYMTAB))
      && (dsym.Some? ==> strtab != Nil && dsym == Symbols(file, strtab, SHT_DYNSYM))
    }

    /** A failed load returns the null list, as a file without string tables does. */
    method LoadStrtab() returns (tab: StrTab)
      requires Valid()
      modifies this`strtab
      ensures Valid() && tab == strtab
      ensures strtab == match StrTabs(file, |file.shdr|) case Some(t) => t case None => Nil
    {
      if strtab != Nil {
        return strtab;
      }
      tab := Nil;
      var i := 0;
      while i < |file.shdr|
        invariant 0 <= i <= |file.shdr| && strtab == Nil
        invariant StrTabs(file, i) == Some(tab)
      {
        if file.shdr[i].kind == SHT_STRTAB {
          var data := FullRead(file.bytes, file.shdr[i].size, file.shdr[i].offset);
          if data.None? {
            assert IsStrTab(file, i) && Section(file, i).None?;
            LoadFailsIffUnreadable(file, |file.shdr|);
            return Nil;
          }
          tab := Cons(i, data.value, tab);
        }
        i := i + 1;
      }
      strtab := tab;
    }

    method FindTab(id: int) returns (data: Option<seq<byte>>)
      ensures data == Find(strtab, id)
    {
      var tab := strtab;
      while tab != Nil
        invariant Find(tab, id) == Find(strtab, id)
        decreases tab
      {
        if tab.id == id {
          return Some(tab.data);
        }
        tab := tab.next;
      }
      return None;
    }

    /** `elf_load_symtab_internal` on the first section of `kind`. */
    method LoadSymbols(kind: int) returns (table: Option<SymTab>)
      requires Valid()
      modifies this`strtab
      ensures Valid()
      ensures strtab == match StrTabs(file, |file.shdr|) case Some(t) => t case None => Nil
      ensures table == if strtab == Nil then None else Symbols(file, strtab, kind)
    {
      table := None;
      var tab := LoadStrtab();
      if tab == Nil {
        return;
      }
      var i := 0;
      while i < |file.shdr|
        invariant 0 <= i <= |file.shdr|
        invariant FirstOfKind(file, kind, i) == FirstOfKind(file, kind, 0)
      {
        if file.shdr[i].kind == kind {
          var strings := FindTab(file.shdr[i].link);
          if strings.None? {
            return;
          }
          var entries := FullRead(file.bytes, file.shdr[i].size, file.shdr[i].offset);
          if entries.None? {
            return;
          }
          return Some(SymTab(file.shdr[i].size / SymSize(file.clazz), strings.value, entries.value));
        }
        i := i + 1;
      }
    }

    method LoadAll() returns (ok: bool)
      requires Valid()
      modifies this
      ensures Valid()
      ensures ok == (file.phnum > 0 && |file.shdr| > 0
                     && match StrTabs(file, |file.shdr|) case Some(t) => t != Nil case None => false)
      ensures ok ==> StrTabs(file, |file.shdr|) == Some(strtab)
                     && sym == Symbols(file, strtab, 2) && dsym == Symbols(file, strtab, 11)
      ensures !ok ==> strtab == Nil && sym == None && dsym == None
    {
      ok := false;
      if file.phnum > 0 && |file.shdr| > 0 {
        var tab := LoadStrtab();
        if tab != Nil {
          if sym.None? {
            sym := LoadSymbols(SHT_SYMTAB);
          }
          if dsym.None? {
            dsym := LoadSymbols(SHT_DYNSYM);
          }
          return true;
        }
      }
      strtab, sym, dsym := Nil, None, None;
    }

    /** The search in `load_prog`: the first section that the header string table calls `.text`. */
    method FindText(names: seq<byte>) returns (idx: int)
      ensures idx == if FirstText(file, names, 0) < |file.shdr| then FirstText(file, names, 0) else -1
    {
      var i := 0;
      while i < |file.shdr|
        invariant 0 <= i <= |file.shdr|
        invariant FirstText(file, names, i) == FirstText(file, names, 0)
      {
        if NamedText(names, file.shdr[i].name) {
          return i;
        }
        i := i + 1;
      }
      return -1;
    }
  }

  /** The number of whole entries of a symbol table: of 16 bytes in a 32-bit file, of 24 in a 64-bit one. */
  predicate CountsEntries(f: File, size: int, count: int) {
    var e := if f.clazz == ELFCLASS32 then 16 else 24;
    count * e <= size < (count + 1) * e
  }

  lemma WholeEntries(f: File, size: int)
    ensures CountsEntries(f, size, size / SymSize(f.clazz))
  {
  }

  /**
   A symbol table is the first section of its kind: it loads exactly when its link names a string-table
   section and it can be read; its entries are its own bytes, its names that section's.
   */
  lemma SymbolsUseLinkedTable(f: File, tab: StrTab, kind: int)
    requires StrTabs(f, |f.shdr|) == Some(tab)
    ensures var k, t := FirstOfKind(f, kind, 0), Symbols(f, tab, kind);
            && (t.Some? <==> k < |f.shdr| && IsStrTab(f, f.shdr[k].link) && InFile(f, k))
            && (t.Some? ==>
                  && IsSection(f, f.shdr[k].link, t.value.strings)
                  && IsSection(f, k, t.value.entries)
                  && CountsEntries(f, f.shdr[k].size, t.value.count))
  {
    var k := FirstOfKind(f, kind, 0);
    if k < |f.shdr| {
      var link := f.shdr[k].link;
      ListAgreesWithTable(f, |f.shdr|, link);
      SectionIsRead(f, k);
      WholeEntries(f, f.shdr[k].size);
      if IsStrTab(f, link) {
        SectionIsRead(f, link);
      }
    }
  }
}
