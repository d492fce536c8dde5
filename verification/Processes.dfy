/** The process table: creating and destroying processes (src/process.c). */
module Processes {
  import opened Bytes
  import opened Paging

  datatype ProcessState = Ready | Running | Blocked

  /** The saved registers, in the order of src/header/process/process.h:59-72. */
  datatype Context = Context(
    edi: u32, esi: u32, ebp: u32, esp: u32, ebx: u32, edx: u32, ecx: u32, eax: u32,
    gs: u32, fs: u32, es: u32, ds: u32, eip: u32, eflags: u32, pageDirectory: u32)

  datatype Pcb = Pcb(pid: u32, state: ProcessState, context: Context)

  const ZERO_CONTEXT: Context := Context(0, 0, 0, 0, 0, 0, 0, 0, 0, 0, 0, 0, 0, 0, 0)
  const ZERO_PCB: Pcb := Pcb(0, Ready, ZERO_CONTEXT)

  type Pcbs = p: seq<Pcb> | |p| == 16 witness seq(16, _ => ZERO_PCB)
  type Active = a: seq<bool> | |a| == 16 witness seq(16, _ => false)

  datatype Kernel = Kernel(pcbs: Pcbs, active: Active, count: int, paging: State)

  // ---------- ceil_div, in single precision ----------

  /** The spacing of single-precision numbers around n: 24 significant bits. */
  function Spacing(n: u32): (m: nat)
    ensures m >= 1
  {
    if n < 0x100_0000 then 1 else if n < 0x200_0000 then 2 else if n < 0x400_0000 then 4
    else if n < 0x800_0000 then 8 else if n < 0x1000_0000 then 16 else if n < 0x2000_0000 then 32
    else if n < 0x4000_0000 then 64 else if n < 0x8000_0000 then 128 else 256
  }

  /** (float) n: to the nearest multiple of the spacing, halfway cases to the even one. */
  function ToFloat(n: u32): nat {
    var m := Spacing(n);
    var q, r := n / m, n % m;
    if 2 * r < m || (2 * r == m && q % 2 == 0) then q * m else (q + 1) * m
  }

  /** ceil_div(n, PAGE_FRAME_SIZE): the division by a power of two is exact, the conversion of n is not. */
  function CeilDiv(n: u32): nat {
    var f := ToFloat(n);
    if f % PAGE_FRAME_SIZE == 0 then f / PAGE_FRAME_SIZE else f / PAGE_FRAME_SIZE + 1
  }

  lemma ToFloatBounds(n: u32)
    ensures n < 0x100_0000 ==> ToFloat(n) == n
    ensures ToFloat(n) == 0 <==> n == 0
    ensures ToFloat(n) <= 0x1_0000_0000
  {
    var m := Spacing(n);
    assert n == n / m * m + n % m;
  }

  /** Small sums are counted exactly, and no page at all is asked for only when the sum is zero. */
  lemma CeilDivIsExact(n: u32)
    ensures n < 0x100_0000 ==> CeilDiv(n) == (n + PAGE_FRAME_SIZE - 1) / PAGE_FRAME_SIZE
    ensures CeilDiv(n) == 0 <==> n == 0
    ensures CeilDiv(n) <= 1024
  {
    ToFloatBounds(n);
  }

  /** The pages process_create_user_process asks for: the program and one page of stack. The sum wraps. */
  function PagesNeeded(size: u32): nat {
    CeilDiv((size + PAGE_FRAME_SIZE) % 0x1_0000_0000)
  }

  lemma StackNeedsOnePage()
    ensures PagesNeeded(0) == 1
  {
  }

  /** The one size whose sum with a page wraps to zero. */
  const WRAPPING_SIZE: u32 := 0xFFC0_0000

  /** The memory check passes a page count where bytes are expected: it asks for one free frame, or for none when the
      sum has wrapped to zero. */
  lemma MemoryCheckMeans(s: State, size: u32)
    ensures AllocateCheck(s, PagesNeeded(size)) <==> s.free >= (if size == WRAPPING_SIZE then 0 else 1)
  {
    CeilDivIsExact((size + PAGE_FRAME_SIZE) % 0x1_0000_0000);
  }

  // ---------- create and destroy ----------

  /** x | CPU_EFLAGS_BASE_FLAG: bit 1 set, all others kept. */
  function WithBaseFlag(x: u32): u32 {
    x / 4 * 4 + 2 + x % 2
  }

  /** x | CPU_EFLAGS_FLAG_INTERRUPT_ENABLE: bit 9 set, all others kept. */
  function WithInterruptFlag(x: u32): u32 {
    x / 0x400 * 0x400 + 0x200 + x % 0x200
  }

  const USER_DATA: u32 := 0x23   // GDT_USER_DATA_SEGMENT_SELECTOR | 0x3

  /** A new process starts at entry with an empty stack; its other registers are left over from the slot. */
  function FreshContext(prior: Context, entry: u32, directory: u32): Context {
    prior.(eip := entry, esp := KERNEL_BASE - 4, ebp := KERNEL_BASE - 4,
           gs := USER_DATA, fs := USER_DATA, ds := USER_DATA, es := USER_DATA,
           eflags := WithInterruptFlag(WithBaseFlag(prior.eflags)), pageDirectory := directory)
  }

  function CreateCode(k: Kernel, entry: u32, size: u32): int {
    if k.count >= 16 then 1
    else if entry >= KERNEL_BASE then 2
    else if !AllocateCheck(k.paging, PagesNeeded(size)) || PagesNeeded(size) > 8 then 3
    else if CreateDirectory(k.paging).1 == 32 then 3
    else 0
  }

  /** The kernel after process_create_user_process. When no directory is left the slot stays taken. */
  function Create(k: Kernel, entry: u32, size: u32): Kernel
    requires k.count < 16 ==> FirstClear(k.active, 0) < 16
    requires Placed(k.paging.base)
  {
    if k.count >= 16 || entry >= KERNEL_BASE
       || !AllocateCheck(k.paging, PagesNeeded(size)) || PagesNeeded(size) > 8 then k
    else
      var p := FirstClear(k.active, 0);
      var k1 := k.(active := k.active[p := true], count := k.count + 1, pcbs := k.pcbs[p := k.pcbs[p].(pid := p)]);
      var d := CreateDirectory(k.paging).1;
      if d == 32 then k1
      else
        k1.(pcbs := k.pcbs[p := Pcb(p, Ready, FreshContext(k.pcbs[p].context, entry, AddressOf(k.paging.base, d)))],
            paging := UseDirectory(Provide(k.paging, entry), CurrentDirectory(k.paging)))
  }

  /** The last of the first n process control blocks with this pid, 16 when there is none. */
  function LastWithPid(pcbs: Pcbs, pid: u32, n: nat): (k: nat)
    requires n <= 16
    ensures k < n || k == 16
    ensures k < n ==> pcbs[k].pid == pid && forall j :: k < j < n ==> pcbs[j].pid != pid
    ensures k == 16 ==> forall j :: 0 <= j < n ==> pcbs[j].pid != pid
  {
    if n == 0 then 16 else if pcbs[n - 1].pid == pid then n - 1 else LastWithPid(pcbs, pid, n - 1)
  }

  predicate DestroyDefined(k: Kernel, pid: u32) {
    pid < 16 && k.active[pid] ==> LastWithPid(k.pcbs, pid, 16) < 16
  }

  /** The kernel after process_destroy, and whether it did anything. */
  function Destroy(k: Kernel, pid: u32): (r: (Kernel, bool))
    requires DestroyDefined(k, pid)
  {
    if pid >= 16 || !k.active[pid] then (k, false)
    else
      var i := LastWithPid(k.pcbs, pid, 16);
      (Kernel(k.pcbs[i := k.pcbs[i].(state := Ready)], k.active[pid := false], k.count - 1,
              FreeDirectory(k.paging, k.pcbs[i].context.pageDirectory)), true)
  }

  // ---------- in place ----------

  class ProcessManager {
    const paging: PageManager
    const pcbs: array<Pcb>        // _process_list
    const active: array<bool>     // process_manager_state.list_of_process
    var count: int                // process_manager_state.active_process_count

    ghost function Repr(): set<object> {
      {this, pcbs, active} + paging.Repr()
    }

    ghost predicate Valid()
      reads this, paging
    {
      && paging.Valid() && pcbs.Length == 16 && active.Length == 16
      && active != paging.frames && active != paging.used && pcbs as object != paging.dirs as object
    }

    ghost function Abs(): Kernel
      reads this, pcbs, active, paging, paging.frames, paging.dirs, paging.used
      requires Valid()
    {
      Kernel(pcbs[..], active[..], count, paging.Abs())
    }

    constructor (list: u32, kernelDirectory: u32)
      requires Placed(list) && KERNEL_BASE < kernelDirectory
      ensures Valid() && fresh(Repr())
      ensures Abs().pcbs == seq(16, _ => ZERO_PCB) && Abs().active == seq(16, _ => false) && count == 0
      ensures Isolated(paging.Abs()) && paging.Abs().used == seq(32, _ => false)
      ensures paging.Abs().frames == [true] + seq(31, _ => false)
      ensures paging.base == list && paging.cr3 == kernelDirectory - KERNEL_BASE
    {
      paging := new PageManager(list, kernelDirectory);
      pcbs := new Pcb[16](_ => ZERO_PCB);
      active := new bool[16](_ => false);
      count := 0;
    }

    method GetInactiveIndex() returns (p: nat)
      requires Valid()
      ensures p == FirstClear(active[..], 0)
    {
      for i := 0 to 16
        invariant FirstClear(active[..], 0) == FirstClear(active[..], i)
      {
        if !active[i] { return i; }
      }
      return 16;
    }

    /** Loads the new directory, gives it a frame for the program and one for the stack, and goes back to the
        directory that was in CR3 before. */
    method ProvideFrames(d: nat, address: u32, entry: u32)
      requires Valid() && d < 32
      modifies paging, paging.frames, paging.dirs
      ensures Valid()
      ensures paging.Abs() == UseDirectory(
        AllocateFrame(AllocateFrame(old(paging.Abs()), d, entry), d, 0xBFFF_FFFC), CurrentDirectory(old(paging.Abs())))
    {
      var prev := paging.GetCurrentPageDirectory();
      paging.UsePageDirectory(address);
      var _ := paging.AllocateUserPageFrame(d, entry);
      var _ := paging.AllocateUserPageFrame(d, 0xBFFF_FFFC);
      paging.UsePageDirectory(prev);
    }

    /** The slot is marked taken and gets its pid before anything else can fail. */
    method TakeSlot() returns (p: nat)
      requires Valid() && FirstClear(active[..], 0) < 16
      modifies this`count, pcbs, active
      ensures Valid() && p == FirstClear(old(active[..]), 0)
      ensures pcbs[..] == old(pcbs[..])[p := old(pcbs[p]).(pid := p)]
      ensures active[..] == old(active[..])[p := true] && count == old(count) + 1
    {
      p := GetInactiveIndex();
      active[p] := true;
      count := count + 1;
      pcbs[p] := pcbs[p].(pid := p);
    }

    /** The new process gets its frames and its first context. */
    method FillSlot(p: nat, address: u32, entry: u32)
      requires Valid() && p < 16 && 0 <= address - paging.base < 4096 * 32
      modifies paging, paging.frames, paging.dirs, pcbs
      ensures Valid()
      ensures pcbs[..] == old(pcbs[..])[
        p := Pcb(old(pcbs[p].pid), Ready, FreshContext(old(pcbs[p].context), entry, address))]
      ensures var s, d := old(paging.Abs()), (address - paging.base) / 4096;
        paging.Abs() == UseDirectory(AllocateFrame(AllocateFrame(s, d, entry), d, 0xBFFF_FFFC), CurrentDirectory(s))
    {
      hide AllocateFrame, UseDirectory, CurrentDirectory, FreshContext;
      pcbs[p] := pcbs[p].(state := Ready);
      ProvideFrames((address - paging.base) / 4096, address, entry);
      pcbs[p] := pcbs[p].(context := FreshContext(pcbs[p].context, entry, address), state := Ready);
    }

    method CreateUserProcess(entry: u32, size: u32) returns (code: int)
      requires Valid() && (count < 16 ==> FirstClear(active[..], 0) < 16)
      modifies Repr()
      ensures Valid()
      ensures code == CreateCode(old(Abs()), entry, size) && Abs() == Create(old(Abs()), entry, size)
    {
      hide AllocateFrame, EntryIndex, CeilDiv, FreshContext, UseDirectory;
      ghost var k := Abs();
      if count >= 16 { return 1; }
      if entry >= KERNEL_BASE { return 2; }
      var needed := CeilDiv((size + PAGE_FRAME_SIZE) % 0x1_0000_0000);
      if !(paging.free >= (needed + PAGE_FRAME_SIZE - 1) / PAGE_FRAME_SIZE) || needed > 8 { return 3; }
      var p := TakeSlot();
      var address := paging.CreateNewPageDirectory();
      if address == NULL { return 3; }
      FillSlot(p, address, entry);
      assert CurrentDirectory(CreateDirectory(k.paging).0) == CurrentDirectory(k.paging);
      return 0;
    }

    method ProcessDestroy(pid: u32) returns (done: bool)
      requires Valid() && DestroyDefined(Abs(), pid)
      modifies Repr()
      ensures Valid() && (Abs(), done) == Destroy(old(Abs()), pid)
    {
      ghost var k := Abs();
      if pid >= 16 { return false; }
      if !active[pid] { return false; }
      var pcb: nat := 16;
      for i := 0 to 16
        invariant pcb == LastWithPid(pcbs[..], pid, i) && Abs() == k
      {
        if pcbs[i].pid == pid { pcb := i; }
      }
      var directory := pcbs[pcb].context.pageDirectory;
      pcbs[pcb] := pcbs[pcb].(state := Ready);
      var _ := paging.FreePageDirectory(directory);
      active[pid] := false;
      count := count - 1;
      return true;
    }

    /** The first process control block that is running, 16 when there is none. */
    method GetCurrentRunning() returns (i: nat)
      requires Valid()
      ensures i == FirstRunning(pcbs[..], 0)
    {
      for j := 0 to 16
        invariant FirstRunning(pcbs[..], 0) == FirstRunning(pcbs[..], j)
      {
        if pcbs[j].state == Running { return j; }
      }
      return 16;
    }
  }

  function FirstRunning(pcbs: Pcbs, i: nat): (k: nat)
    requires i <= 16
    ensures i <= k <= 16
    ensures k < 16 ==> pcbs[k].state == Running
    ensures forall j :: i <= j < k ==> pcbs[j].state != Running
    decreases 16 - i
  {
    if i == 16 || pcbs[i].state == Running then i else FirstRunning(pcbs, i + 1)
  }
}
