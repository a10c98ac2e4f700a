/** The argument strings of a program: how kernel/process/loader.c leaves them in the first page of the heap,
    and how libraries/bootstrap.c finds them there. */
module Arguments {
  import opened Machine
  import opened PageEntries
  import opened Bytes
  import opened PageTables
  import opened CopyOnWrite
  import opened ProcessMemory
  import opened Elf
  import opened Programs
  import VM = VirtualMemory

  /** C strings one behind the other, each with its NUL. */
  function Block(strings: seq<seq<Byte>>): seq<Byte> {
    if strings == [] then [] else strings[0] + [0] + Block(strings[1..])
  }

  ghost predicate NoNul(strings: seq<seq<Byte>>) {
    forall i :: 0 <= i < |strings| ==> 0 !in strings[i]
  }

  lemma {:induction false} BlockOfTwo(a: seq<seq<Byte>>, b: seq<seq<Byte>>)
    ensures Block(a + b) == Block(a) + Block(b)
    decreases |a|
  {
    if a == [] {
      assert a + b == b;
    } else {
      BlockOfTwo(a[1..], b);
      assert (a + b)[1..] == a[1..] + b;
    }
  }

  lemma BlockEnd(strings: seq<seq<Byte>>, s: seq<Byte>)
    ensures Block(strings + [s]) == Block(strings) + (s + [0])
  {
    BlockOfTwo(strings, [s]);
    assert [s][1..] == [];
  }

  lemma Cut(strings: seq<seq<Byte>>, i: nat)
    requires i < |strings|
    ensures strings[..i + 1] == strings[..i] + [strings[i]] && strings == strings[..i + 1] + strings[i + 1..]
  {
  }

  lemma BlockAt(strings: seq<seq<Byte>>, i: nat)
    requires i < |strings|
    ensures Block(strings[..i + 1]) == Block(strings[..i]) + (strings[i] + [0])
    ensures Block(strings) == Block(strings[..i + 1]) + Block(strings[i + 1..])
  {
    Cut(strings, i);
    BlockEnd(strings[..i], strings[i]);
    BlockOfTwo(strings[..i + 1], strings[i + 1..]);
  }

  lemma {:induction false} BlockLonger(strings: seq<seq<Byte>>)
    ensures |strings| <= |Block(strings)|
    decreases |strings|
  {
    if strings != [] {
      BlockLonger(strings[1..]);
    }
  }

  // ----- the loader -----

  /** A page that starts with these bytes, and is otherwise as it was. */
  function Over(block: seq<Byte>, page: seq<Byte>): (r: seq<Byte>)
    requires |block| <= |page|
    ensures |r| == |page| && r[..|block|] == block && r[|block|..] == page[|block|..]
  {
    block + page[|block|..]
  }

  /** memcpy_8 of a string and its NUL. */
  method PutString(page: array<Byte>, at: nat, s: seq<Byte>, ghost before: seq<Byte>, ghost block: seq<Byte>)
    requires |before| == page.Length && at == |block| && at + |s| + 1 <= page.Length && page[..] == Over(block, before)
    modifies page
    ensures page[..] == Over(block + (s + [0]), before)
  {
    var i := 0;
    ghost var all := block + (s + [0]);
    while i < |s| + 1
      invariant 0 <= i <= |s| + 1
      invariant forall k :: 0 <= k < at + i ==> page[k] == all[k]
      invariant forall k :: at + i <= k < page.Length ==> page[k] == before[k]
    {
      page[at + i] := if i < |s| then s[i] else 0;
      i := i + 1;
    }
    assert page[..] == Over(all, before);
  }

  /** The length of the strings, as the loader adds it up. */
  method Measure(strings: seq<seq<Byte>>) returns (length: nat)
    ensures length == |Block(strings)|
  {
    length := 0;
    for i := 0 to |strings|
      invariant length == |Block(strings[..i])|
    {
      BlockAt(strings, i);
      length := length + |strings[i]| + 1;
    }
    assert strings[..|strings|] == strings;
  }

  /** The name and the arguments into a page, whatever that holds. */
  method PutArgs(page: array<Byte>, name: seq<Byte>, argv: seq<seq<Byte>>) returns (length: nat)
    requires |Block([name] + argv)| <= page.Length
    modifies page
    ensures length == |Block([name] + argv)| && page[..] == Over(Block([name] + argv), old(page[..]))
  {
    ghost var all, before := [name] + argv, page[..];
    length := Measure(argv);
    BlockAt(all, 0);
    assert all[1..] == argv && all[..0] == [];
    PutString(page, 0, name, before, []);
    length := length + |name| + 1;
    var at := |name| + 1;
    for j := 0 to |argv|
      invariant at == |Block(all[..j + 1])| && at <= page.Length && page[..] == Over(Block(all[..j + 1]), before)
    {
      BlockAt(all, j + 1);
      PutString(page, at, argv[j], before, Block(all[..j + 1]));
      at := at + |argv[j]| + 1;
    }
    assert all[..|argv| + 1] == all;
  }

  // ----- the program -----

  ghost predicate StartsWith(page: Page, block: seq<Byte>) {
    |block| <= PAGE && forall x :: 0 <= x < |block| ==> HeldAt(page, block, x)
  }

  ghost predicate HeldAt(page: Page, block: seq<Byte>, x: nat)
    requires x < |block| <= PAGE
  {
    ReadByte(page, x) == block[x]
  }

  /** The heap starts with these bytes, as the process reads it. */
  ghost predicate Holds(image: Image, block: seq<Byte>) {
    VM.HEAP_PAGE in image && StartsWith(image[VM.HEAP_PAGE], block)
  }

  lemma WordsHold(image: Image, page: seq<Byte>, block: seq<Byte>)
    requires |block| <= |page| == PAGE && page[..|block|] == block && ArgsAt(image, Words(page))
    ensures Holds(image, block)
  {
    forall x | 0 <= x < |block| ensures HeldAt(image[VM.HEAP_PAGE], block, x) {
      ByteOfPage(page, x);
      assert block[x] == page[..|block|][x];
      assert image[VM.HEAP_PAGE][x / 4] == Words(page)[x / 4];
    }
  }

  /** The string s stands at this place of the block. */
  ghost predicate Stands(block: seq<Byte>, at: nat, s: seq<Byte>) {
    && at + |s| < |block| && block[at + |s|] == 0
    && forall k :: 0 <= k < |s| ==> StandsAt(block, at, s, k)
  }

  ghost predicate StandsAt(block: seq<Byte>, at: nat, s: seq<Byte>, k: nat)
    requires k < |s| && at + |s| < |block|
  {
    block[at + k] == s[k] && s[k] != 0
  }

  lemma StringStands(strings: seq<seq<Byte>>, i: nat)
    requires i < |strings| && NoNul(strings)
    ensures Stands(Block(strings), |Block(strings[..i])|, strings[i])
    ensures |Block(strings[..i + 1])| == |Block(strings[..i])| + |strings[i]| + 1
  {
    BlockAt(strings, i);
    ThereIn(Block(strings[..i]), strings[i], Block(strings[i + 1..]));
  }

  lemma ThereIn(a: seq<Byte>, s: seq<Byte>, b: seq<Byte>)
    requires 0 !in s
    ensures Stands(a + (s + [0]) + b, |a|, s)
  {
  }

  /** strlen and strncpy from a place in the page on. */
  method FetchString(page: Page, at: nat, ghost block: seq<Byte>, ghost s: seq<Byte>) returns (r: seq<Byte>)
    requires StartsWith(page, block) && Stands(block, at, s)
    ensures r == s
  {
    var b := FetchByte(page, at, block);
    r := [];
    while b != 0
      invariant |r| <= |s| && b == block[at + |r|] && forall k :: 0 <= k < |r| ==> r[k] == s[k]
      decreases |s| - |r|
    {
      assert |r| < |s| ==> StandsAt(block, at, s, |r|);
      r := r + [b];
      b := FetchByte(page, at + |r|, block);
    }
    assert |r| < |s| ==> StandsAt(block, at, s, |r|);
  }

  function FetchByte(page: Page, x: nat, ghost block: seq<Byte>): (b: Byte)
    requires StartsWith(page, block) && x < |block|
    ensures b == block[x]
  {
    assert HeldAt(page, block, x);
    ReadByte(page, x)
  }

  /** The loop of bootstrap: as many strings, one behind the other. */
  method FetchStrings(page: Page, argc: nat, ghost strings: seq<seq<Byte>>) returns (args: seq<seq<Byte>>)
    requires argc == |strings| && NoNul(strings) && StartsWith(page, Block(strings))
    ensures args == strings
  {
    var at := 0;
    args := [];
    for i := 0 to argc
      invariant |args| == i && at == |Block(strings[..i])| && forall k :: 0 <= k < i ==> args[k] == strings[k]
    {
      StringStands(strings, i);
      var arg := FetchString(page, at, Block(strings), strings[i]);
      args := args + [arg];
      at := at + |arg| + 1;
    }
  }

  /** How many strings the last word on the stack says. */
  function Argc(table: VM.ProcessTable, pid: int, ghost length: nat, ghost argc: nat): (n: nat)
    requires table.Valid() && pid in table.dirs && TopIs(Reads(table.S())[pid], length, argc)
    reads table`dirs, table.mmu, table.mmu.phys, table.mmu.phys.allocations, table.mmu.phys.freeList
    ensures n == argc + 1
  {
    Encode(table.ReadWord(pid, STACK_TOP, 1023))
  }

  /** bootstrap: the strings that the program finds. */
  method FetchArgs(table: VM.ProcessTable, pid: int, ghost strings: seq<seq<Byte>>) returns (args: seq<seq<Byte>>)
    requires table.Valid() && pid in table.dirs && strings != [] && NoNul(strings)
    requires Holds(Reads(table.S())[pid], Block(strings)) && TopIs(Reads(table.S())[pid], |Block(strings)|, |strings| - 1)
    ensures args == strings
  {
    args := FetchStrings(table.ReadPage(pid, VM.HEAP_PAGE), Argc(table, pid, |Block(strings)|, |strings| - 1), strings);
  }

  // ----- both -----

  /** The words of the argument page. */
  function ArgWords(name: seq<Byte>, argv: seq<seq<Byte>>, page: seq<Byte>): Page
    requires |Block([name] + argv)| <= |page| == PAGE
  {
    Words(Over(Block([name] + argv), page))
  }

  lemma ArgWordsOk(name: seq<Byte>, argv: seq<seq<Byte>>, page: seq<Byte>)
    requires |Block([name] + argv)| <= |page| == PAGE
    ensures ArgsOk(ArgWords(name, argv, page), |Block([name] + argv)|, |argv|)
  {
    BlockLonger([name] + argv);
  }

  ghost function ArgExecPages(headers: seq<Phdr>, file: seq<Byte>, name: seq<Byte>, argv: seq<seq<Byte>>, page: seq<Byte>): seq<VM.PageInit>
    requires AllPlaced(headers, file) && |Block([name] + argv)| <= |page| == PAGE
  {
    ArgWordsOk(name, argv, page);
    ExecPages(headers, file, ArgWords(name, argv, page), |Block([name] + argv)|, |argv|)
  }

  ghost function ArgSpawnPages(headers: seq<Phdr>, file: seq<Byte>, name: seq<Byte>, argv: seq<seq<Byte>>, page: seq<Byte>): seq<VM.PageInit>
    requires AllPlaced(headers, file) && |Block([name] + argv)| <= |page| == PAGE
  {
    ArgWordsOk(name, argv, page);
    SpawnPages(headers, file, ArgWords(name, argv, page), |Block([name] + argv)|, |argv|)
  }

  /** loader_exec with the name and the arguments put into whatever the page held before. */
  method ExecWith(table: VM.ProcessTable, pid: int, headers: seq<Phdr>, file: seq<Byte>, name: seq<Byte>, argv: seq<seq<Byte>>, page: array<Byte>)
    requires table.Valid() && table.StacksOk() && pid in table.dirs && AllPlaced(headers, file)
    requires |Block([name] + argv)| <= page.Length == PAGE
    requires table.FreeAfterClear(pid) >= VM.FramesFor({}, ArgExecPages(headers, file, name, argv, page[..]), 0)
    modifies page, table`heapEnd, table`stackFrames, table.mmu, table.mmu.phys.allocations
    ensures table.Valid() && unchanged(table`dirs) && Holds(Reads(table.S())[pid], Block([name] + argv))
    ensures TopIs(Reads(table.S())[pid], |Block([name] + argv)|, |argv|)
  {
    ArgWordsOk(name, argv, page[..]);
    var length := PutArgs(page, name, argv);
    Exec(table, pid, headers, file, Words(page[..]), length, |argv|);
    WordsHold(Reads(table.S())[pid], page[..], Block([name] + argv));
  }

  method SpawnWith(table: VM.ProcessTable, pid: int, current: nat, headers: seq<Phdr>, file: seq<Byte>, name: seq<Byte>, argv: seq<seq<Byte>>,
                   page: array<Byte>)
    requires table.Valid() && table.StacksOk() && pid !in table.dirs && current < |table.mmu.mem| && Held(table.mmu.H(), current)
    requires AllPlaced(headers, file) && |Block([name] + argv)| <= page.Length == PAGE
    requires table.Free() >= VM.FramesFor({}, ArgSpawnPages(headers, file, name, argv, page[..]), 0) + 1
    modifies page, table, table.mmu, table.mmu.phys.allocations
    ensures table.Valid() && table.dirs.Keys == old(table.dirs.Keys) + {pid} && Holds(Reads(table.S())[pid], Block([name] + argv))
    ensures !CoveredBy(headers, STACK_TOP) ==> TopIs(Reads(table.S())[pid], |Block([name] + argv)|, |argv|)
  {
    ArgWordsOk(name, argv, page[..]);
    var length := PutArgs(page, name, argv);
    Spawn(table, pid, current, headers, file, Words(page[..]), length, |argv|);
    WordsHold(Reads(table.S())[pid], page[..], Block([name] + argv));
  }

  /** A program that loader_exec starts is called with its name and the arguments given, whatever the page
      held before. */
  method ExecPasses(table: VM.ProcessTable, pid: int, headers: seq<Phdr>, file: seq<Byte>, name: seq<Byte>, argv: seq<seq<Byte>>, page: array<Byte>)
      returns (args: seq<seq<Byte>>)
    requires table.Valid() && table.StacksOk() && pid in table.dirs && AllPlaced(headers, file) && NoNul([name] + argv)
    requires |Block([name] + argv)| <= page.Length == PAGE
    requires table.FreeAfterClear(pid) >= VM.FramesFor({}, ArgExecPages(headers, file, name, argv, page[..]), 0)
    modifies page, table`heapEnd, table`stackFrames, table.mmu, table.mmu.phys.allocations
    ensures args == [name] + argv
  {
    ExecWith(table, pid, headers, file, name, argv, page);
    args := FetchArgs(table, pid, [name] + argv);
  }

  /** The same of loader_spawn, where no segment lies on the top page of the stack. */
  method SpawnPasses(table: VM.ProcessTable, pid: int, current: nat, headers: seq<Phdr>, file: seq<Byte>, name: seq<Byte>, argv: seq<seq<Byte>>,
                     page: array<Byte>)
      returns (args: seq<seq<Byte>>)
    requires table.Valid() && table.StacksOk() && pid !in table.dirs && current < |table.mmu.mem| && Held(table.mmu.H(), current)
    requires AllPlaced(headers, file) && NoNul([name] + argv) && !CoveredBy(headers, STACK_TOP)
    requires |Block([name] + argv)| <= page.Length == PAGE
    requires table.Free() >= VM.FramesFor({}, ArgSpawnPages(headers, file, name, argv, page[..]), 0) + 1
    modifies page, table, table.mmu, table.mmu.phys.allocations
    ensures args == [name] + argv
  {
    SpawnWith(table, pid, current, headers, file, name, argv, page);
    args := FetchArgs(table, pid, [name] + argv);
  }
}
