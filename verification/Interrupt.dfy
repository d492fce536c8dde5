/**
  How registers travel through an interrupt: the stack frame built by the processor
  (Intel Software Developer's Manual, volume 3A, section 6.12.1) and by
  src/intsetup.s, the context taken from it by src/interrupt.c, and the restore in
  src/scheduler.s.
*/
module Interrupt {
  import opened Bytes
  import opened Processes

  /** The registers a user program sees. */
  datatype Cpu = Cpu(
    edi: u32, esi: u32, ebp: u32, esp: u32, ebx: u32, edx: u32, ecx: u32, eax: u32,
    gs: u16, fs: u16, es: u16, ds: u16, eip: u32, eflags: u32, cs: u16, ss: u16)

  const USER_CODE: u16 := 0x1B    // 0x18 | 0x3
  const USER_STACK: u16 := 0x23   // 0x20 | 0x3
  const KERNEL_DATA: u16 := 0x10
  const TIMER_INTERRUPT: u32 := 0x20

  predicate UserMode(c: Cpu) {
    c.cs == USER_CODE && c.ss == USER_STACK
  }

  /** The words on the kernel stack when main_interrupt_handler runs, lowest address first: what pushad, the segment
      pushes, the stub and the processor left. Word 3 is the stack pointer that pushad saw, unless the entry code
      replaced it by the user's. */
  function FrameWords(c: Cpu, kernelEsp: u32, number: u32): (s: seq<u32>)
    ensures |s| == 19
  {
    [c.edi, c.esi, c.ebp, if c.ds % 4 != 0 then c.esp else kernelEsp, c.ebx, c.edx, c.ecx, c.eax,
     c.gs, c.fs, c.es, c.ds, number, 0, c.eip, c.cs, c.eflags, c.esp, c.ss]
  }

  /** The context that the timer branch of main_interrupt_handler builds from the frame. */
  function ContextOf(frame: seq<u32>, directory: u32): Context
    requires |frame| == 19
  {
    Context(frame[0], frame[1], frame[2], frame[3], frame[4], frame[5], frame[6], frame[7],
            frame[8], frame[9], frame[10], frame[11], frame[14], frame[16], directory)
  }

  /** A struct Context as the words of a C argument, lowest address first. */
  function ContextWords(x: Context): (s: seq<u32>)
    ensures |s| == 15
  {
    [x.edi, x.esi, x.ebp, x.esp, x.ebx, x.edx, x.ecx, x.eax, x.gs, x.fs, x.es, x.ds, x.eip, x.eflags, x.pageDirectory]
  }

  /** Where the registers lie in struct Context, in words (src/header/process/process.h:59-72,
      src/header/cpu/interrupt.h:117-138). */
  lemma ContextLayout(x: Context)
    ensures var s := ContextWords(x);
      && x.edi == s[0] && x.esi == s[1] && x.ebp == s[2] && x.esp == s[3] && x.ebx == s[4] && x.edx == s[5]
      && x.ecx == s[6] && x.eax == s[7] && x.gs == s[8] && x.fs == s[9] && x.es == s[10] && x.ds == s[11]
      && x.eip == s[12] && x.eflags == s[13] && x.pageDirectory == s[14]
  {
  }

  function Low16(w: u32): u16 {
    w % 0x1_0000
  }

  /** The registers after process_context_switch has jumped to a context. */
  function Resumed(x: Context): Cpu {
    Cpu(x.edi, x.esi, x.ebp, x.esp, x.ebx, x.edx, x.ecx, x.eax,
        Low16(x.gs), Low16(x.fs), Low16(x.es), Low16(x.ds), x.eip, x.eflags, USER_CODE, USER_STACK)
  }

  /** Interrupt entry, saving and restoring are inverse for a user program exactly when the entry code recognises it by
      the privilege bits of ds - or the two stack pointers happen to agree. */
  lemma ResumeOfSave(c: Cpu, kernelEsp: u32, number: u32, directory: u32)
    requires UserMode(c)
    ensures Resumed(ContextOf(FrameWords(c, kernelEsp, number), directory)) == c
        <==> c.ds % 4 != 0 || c.esp == kernelEsp
  {
    var r := Resumed(ContextOf(FrameWords(c, kernelEsp, number), directory));
    assert r == c.(esp := if c.ds % 4 != 0 then c.esp else kernelEsp);
  }

  /** The frame before the entry code looks at the saved stack pointer. */
  function RawFrame(c: Cpu, kernelEsp: u32, number: u32): (s: seq<u32>)
    ensures |s| == 19
  {
    FrameWords(c, kernelEsp, number)[3 := kernelEsp]
  }

  lemma JoinFrame(c: Cpu, kernelEsp: u32, number: u32)
    ensures [c.edi, c.esi, c.ebp, kernelEsp, c.ebx, c.edx, c.ecx, c.eax]
            + ([c.gs, c.fs, c.es, c.ds, number, 0] + [c.eip, c.cs, c.eflags, c.esp, c.ss])
         == RawFrame(c, kernelEsp, number)
  {
  }

  lemma FrameParts(frame: seq<u32>, segments: seq<u32>, rest: seq<u32>)
    requires |frame| == 19 && segments == frame[8..] && rest == frame[14..]
    ensures segments[6..] == rest && |segments| == 11 && |rest| == 5
    ensures segments[0] == frame[8] && segments[1] == frame[9] && segments[2] == frame[10] && segments[3] == frame[11]
    ensures rest[0] == frame[14] && rest[1] == frame[15] && rest[2] == frame[16] && rest[3] == frame[17]
    ensures rest[4] == frame[18]
  {
  }

  class Processor {
    var edi: u32
    var esi: u32
    var ebp: u32
    var esp: u32      // the user's stack pointer; in the kernel the stack pointer is sp
    var ebx: u32
    var edx: u32
    var ecx: u32
    var eax: u32
    var gs: u16
    var fs: u16
    var es: u16
    var ds: u16
    var eip: u32
    var eflags: u32
    var cs: u16
    var ss: u16

    const stackBase: u32        // address of the lowest word of the kernel stack
    const mem: array<u32>       // the kernel stack
    var sp: nat                 // the kernel's stack pointer, in words above stackBase

    ghost predicate Valid()
      reads this
    {
      64 <= mem.Length && stackBase + 4 * mem.Length < 0x1_0000_0000 && sp <= mem.Length
    }

    ghost function Registers(): Cpu
      reads this
    {
      Cpu(edi, esi, ebp, esp, ebx, edx, ecx, eax, gs, fs, es, ds, eip, eflags, cs, ss)
    }

    /** The stack pointer that pushad saves: eleven words below the top. */
    ghost function PushadEsp(): u32
      reads this
      requires Valid()
    {
      stackBase + 4 * (mem.Length - 11)
    }

    constructor (base: u32, words: nat, c: Cpu)
      requires 64 <= words && base + 4 * words < 0x1_0000_0000
      ensures Valid() && fresh(mem) && Registers() == c && stackBase == base && mem.Length == words
    {
      edi, esi, ebp, esp, ebx, edx, ecx, eax := c.edi, c.esi, c.ebp, c.esp, c.ebx, c.edx, c.ecx, c.eax;
      gs, fs, es, ds := c.gs, c.fs, c.es, c.ds;
      eip, eflags, cs, ss := c.eip, c.eflags, c.cs, c.ss;
      stackBase := base;
      mem := new u32[words](_ => 0);
      sp := words;
    }

    method Push(v: u32)
      requires Valid() && 0 < sp
      modifies this`sp, mem
      ensures Valid() && sp == old(sp) - 1 && mem[sp] == v
      ensures forall k :: old(sp) <= k < mem.Length ==> mem[k] == old(mem[k])
    {
      sp := sp - 1;
      mem[sp] := v;
    }

    method Pop() returns (v: u32)
      requires Valid() && sp < mem.Length
      modifies this`sp
      ensures Valid() && sp == old(sp) + 1 && v == mem[old(sp)]
    {
      v := mem[sp];
      sp := sp + 1;
    }

    /** What the processor pushes when an interrupt leaves user mode; esp0 of the TSS is the top of the stack. */
    method EnterPrivileged()
      requires Valid()
      modifies this`sp, mem
      ensures Valid() && sp == mem.Length - 5 && mem[sp..] == [eip, cs, eflags, esp, ss]
    {
      sp := mem.Length;
      Push(ss);
      Push(esp);
      Push(eflags);
      Push(cs);
      Push(eip);
    }

    /** interrupt_handler_N and the segment pushes at call_generic_handler. */
    method PushSegments(number: u32)
      requires Valid() && sp == mem.Length - 5
      modifies this`sp, mem
      ensures Valid() && sp == mem.Length - 11
      ensures mem[sp..] == [gs, fs, es, ds, number, 0] + old(mem[mem.Length - 5..])
    {
      Push(0);
      Push(number);
      Push(ds);
      Push(es);
      Push(fs);
      Push(gs);
    }

    /** pushad: the stack pointer it saves is the one before its first push. */
    method PushAd()
      requires Valid() && sp == mem.Length - 11
      modifies this`sp, mem
      ensures Valid() && sp == mem.Length - 19
      ensures mem[sp..] == [edi, esi, ebp, PushadEsp(), ebx, edx, ecx, eax] + old(mem[mem.Length - 11..])
    {
      var seen := stackBase + 4 * sp;
      Push(eax);
      Push(ecx);
      Push(edx);
      Push(ebx);
      Push(seen);
      Push(ebp);
      Push(esi);
      Push(edi);
    }

    /** The saved stack pointer is replaced by the user's when the privilege bits of the saved ds are not those of the
        kernel; eax serves as a scratch register and is put back. */
    method FixStackPointer()
      requires Valid() && sp == mem.Length - 19
      modifies this`sp, this`eax, mem
      ensures Valid() && sp == mem.Length - 19 && eax == old(eax)
      ensures mem[sp + 3] == if old(mem[sp + 11]) % 4 != 0 then old(mem[sp + 17]) else old(mem[sp + 3])
      ensures forall k :: sp <= k < mem.Length && k != sp + 3 ==> mem[k] == old(mem[k])
    {
      Push(eflags);
      Push(eax);
      eax := mem[sp + 13];
      if eax % 4 != 0 {
        eax := mem[sp + 19];
        mem[sp + 5] := eax;
      }
      eax := Pop();
      var _ := Pop();
    }

    /** All the pushes of an interrupt from user mode. */
    method BuildFrame(number: u32)
      requires Valid()
      modifies this`sp, mem
      ensures Valid() && sp == mem.Length - 19
      ensures mem[sp..] == RawFrame(Registers(), PushadEsp(), number)
    {
      EnterPrivileged();
      PushSegments(number);
      PushAd();
      JoinFrame(Registers(), PushadEsp(), number);
    }

    /** Everything from the interrupted user instruction to the call of main_interrupt_handler. */
    method Interrupted(number: u32)
      requires Valid()
      modifies this`sp, this`eax, this`ds, this`es, this`fs, this`gs, this`ebp, mem
      ensures Valid() && sp == mem.Length - 19
      ensures mem[sp..] == FrameWords(old(Registers()), PushadEsp(), number)
    {
      BuildFrame(number);
      ghost var before := mem[sp..];
      ghost var word: u32 := if ds % 4 != 0 then esp else PushadEsp();
      assert before[3] == mem[sp + 3] && before[11] == mem[sp + 11] && before[17] == mem[sp + 17];
      FixStackPointer();
      forall k | 0 <= k < 19
        ensures mem[sp..][k] == before[3 := word][k]
      {
        assert mem[sp..][k] == mem[sp + k] && (k != 3 ==> before[k] == mem[sp + k]);
      }
      assert mem[sp..] == before[3 := word];
      ds, es, fs, gs := KERNEL_DATA, KERNEL_DATA, KERNEL_DATA, KERNEL_DATA;
      ebp := stackBase + 4 * sp;
    }

    /** The timer branch reads its context out of the frame. */
    method TakeContext(directory: u32) returns (x: Context)
      requires Valid() && sp + 19 <= mem.Length
      ensures x == ContextOf(mem[sp..sp + 19], directory)
    {
      x := Context(mem[sp], mem[sp + 1], mem[sp + 2], mem[sp + 3], mem[sp + 4], mem[sp + 5], mem[sp + 6], mem[sp + 7],
                   mem[sp + 8], mem[sp + 9], mem[sp + 10], mem[sp + 11], mem[sp + 14], mem[sp + 16], directory);
    }

    /** A call that passes a struct Context by value: its words and the return address. */
    method PassContext(x: Context, returnAddress: u32)
      requires Valid() && sp >= 16
      modifies this`sp, mem
      ensures Valid() && sp == old(sp) - 16 && ContextAt(sp + 1, x)
    {
      var ws := ContextWords(x);
      for i := 0 to 15
        invariant Valid() && sp == old(sp) - i
        invariant forall k :: 15 - i <= k < 15 ==> mem[old(sp) - 15 + k] == ws[k]
      {
        Push(ws[14 - i]);
      }
      Push(returnAddress);
      ghost var base := sp + 1;
      assert forall k :: 0 <= k < 15 ==> mem[base + k] == ws[k];
      assert mem[base] == ws[0] && mem[base + 1] == ws[1] && mem[base + 2] == ws[2] && mem[base + 3] == ws[3];
      assert mem[base + 4] == ws[4] && mem[base + 5] == ws[5] && mem[base + 6] == ws[6] && mem[base + 7] == ws[7];
      assert mem[base + 8] == ws[8] && mem[base + 9] == ws[9] && mem[base + 10] == ws[10] && mem[base + 11] == ws[11];
      assert mem[base + 12] == ws[12] && mem[base + 13] == ws[13] && mem[base + 14] == ws[14];
    }

    /** The words of a struct Context lie at this place of the stack. */
    ghost predicate ContextAt(base: nat, x: Context)
      reads this, mem
    {
      && base + 15 <= mem.Length
      && mem[base] == x.edi && mem[base + 1] == x.esi && mem[base + 2] == x.ebp && mem[base + 3] == x.esp
      && mem[base + 4] == x.ebx && mem[base + 5] == x.edx && mem[base + 6] == x.ecx && mem[base + 7] == x.eax
      && mem[base + 8] == x.gs && mem[base + 9] == x.fs && mem[base + 10] == x.es && mem[base + 11] == x.ds
      && mem[base + 12] == x.eip && mem[base + 13] == x.eflags && mem[base + 14] == x.pageDirectory
    }

    /** The interrupt-return frame that process_context_switch pushes, read through the saved base of its argument. */
    method PushReturnFrame(base: nat, ghost x: Context)
      requires Valid() && sp >= 5 && base > sp && ContextAt(base, x)
      modifies this`sp, this`eax, mem
      ensures Valid() && sp == old(sp) - 5 && ContextAt(base, x)
      ensures mem[sp] == x.eip && mem[sp + 1] == USER_CODE && mem[sp + 2] == x.eflags
      ensures mem[sp + 3] == x.esp && mem[sp + 4] == USER_STACK
    {
      eax := USER_STACK;
      Push(eax);
      eax := mem[base + 3];
      Push(eax);
      eax := mem[base + 13];
      Push(eax);
      eax := USER_CODE;
      Push(eax);
      eax := mem[base + 12];
      Push(eax);
    }

    method LoadSegments(base: nat, ghost x: Context)
      requires ContextAt(base, x)
      modifies this`gs, this`fs, this`es, this`ds
      ensures gs == Low16(x.gs) && fs == Low16(x.fs) && es == Low16(x.es) && ds == Low16(x.ds)
    {
      gs := Low16(mem[base + 8]);
      fs := Low16(mem[base + 9]);
      es := Low16(mem[base + 10]);
      ds := Low16(mem[base + 11]);
    }

    method LoadRegisters(base: nat, ghost x: Context)
      requires ContextAt(base, x)
      modifies this`edi, this`esi, this`ebp, this`ebx, this`edx, this`ecx, this`eax, this`gs, this`fs, this`es, this`ds
      ensures edi == x.edi && esi == x.esi && ebp == x.ebp && ebx == x.ebx
      ensures edx == x.edx && ecx == x.ecx && eax == x.eax
      ensures gs == Low16(x.gs) && fs == Low16(x.fs) && es == Low16(x.es) && ds == Low16(x.ds)
    {
      edi := mem[base];
      esi := mem[base + 1];
      ebp := mem[base + 2];
      ebx := mem[base + 4];
      edx := mem[base + 5];
      eax := mem[base + 7];
      LoadSegments(base, x);
      ecx := mem[base + 6];
    }

    /** iret to user mode. */
    method ReturnToUser()
      requires Valid() && sp + 5 <= mem.Length
      modifies this`sp, this`eip, this`cs, this`eflags, this`esp, this`ss
      ensures Valid() && sp == old(sp) + 5
      ensures var s := old(mem[sp..]);
        eip == s[0] && cs == Low16(s[1]) && eflags == s[2] && esp == s[3] && ss == Low16(s[4])
    {
      eip := Pop();
      var w := Pop();
      cs := Low16(w);
      eflags := Pop();
      esp := Pop();
      w := Pop();
      ss := Low16(w);
    }

    /** process_context_switch: the program goes on with exactly the registers of the context. */
    method ProcessContextSwitch(x: Context)
      requires Valid() && sp >= 5 && ContextAt(sp + 1, x)
      modifies this, mem
      ensures Valid() && Registers() == Resumed(x)
    {
      var base := sp + 1;
      PushReturnFrame(base, x);
      LoadRegisters(base, x);
      ReturnToUser();
    }

    /** popad: the saved stack pointer is skipped. */
    method PopAd(ghost frame: seq<u32>)
      requires Valid() && sp == mem.Length - 19 && mem[sp..] == frame
      modifies this`sp, this`edi, this`esi, this`ebp, this`ebx, this`edx, this`ecx, this`eax
      ensures Valid() && sp == mem.Length - 11 && mem[sp..] == frame[8..]
      ensures edi == frame[0] && esi == frame[1] && ebp == frame[2] && ebx == frame[4]
      ensures edx == frame[5] && ecx == frame[6] && eax == frame[7]
    {
      assert frame[0] == mem[sp] && frame[1] == mem[sp + 1] && frame[2] == mem[sp + 2] && frame[4] == mem[sp + 4];
      assert frame[5] == mem[sp + 5] && frame[6] == mem[sp + 6] && frame[7] == mem[sp + 7];
      edi := Pop();
      esi := Pop();
      ebp := Pop();
      var _ := Pop();
      ebx := Pop();
      edx := Pop();
      ecx := Pop();
      eax := Pop();
    }

    /** The segment registers, and the interrupt number and error code dropped. */
    method PopSegments(ghost frame: seq<u32>)
      requires Valid() && sp == mem.Length - 11 && mem[sp..] == frame
      modifies this`sp, this`gs, this`fs, this`es, this`ds
      ensures Valid() && sp == mem.Length - 5 && mem[sp..] == frame[6..]
      ensures gs == Low16(frame[0]) && fs == Low16(frame[1]) && es == Low16(frame[2]) && ds == Low16(frame[3])
    {
      var w := Pop();
      gs := Low16(w);
      w := Pop();
      fs := Low16(w);
      w := Pop();
      es := Low16(w);
      w := Pop();
      ds := Low16(w);
      sp := sp + 2;
    }

    /** The way back from a handler that has left the frame alone. */
    method ReturnFromHandler(ghost frame: seq<u32>)
      requires Valid() && sp == mem.Length - 19 && mem[sp..] == frame
      modifies this
      ensures Valid() && esp == frame[17] && eip == frame[14] && eflags == frame[16]
      ensures cs == Low16(frame[15]) && ss == Low16(frame[18])
      ensures edi == frame[0] && esi == frame[1] && ebp == frame[2] && ebx == frame[4]
      ensures edx == frame[5] && ecx == frame[6] && eax == frame[7]
      ensures gs == Low16(frame[8]) && fs == Low16(frame[9]) && es == Low16(frame[10]) && ds == Low16(frame[11])
    {
      hide Low16;
      ghost var segments, rest := frame[8..], frame[14..];
      FrameParts(frame, segments, rest);
      PopAd(frame);
      PopSegments(segments);
      ReturnToUser();
    }

    /** An interrupt whose handler leaves the frame alone - a system call - gives back every register, stack pointer
        included, whatever ds holds. */
    method InterruptAndReturn(number: u32)
      requires Valid()
      modifies this, mem
      ensures Valid() && Registers() == old(Registers())
    {
      ghost var c := Registers();
      Interrupted(number);
      ReturnFromHandler(FrameWords(c, PushadEsp(), number));
    }
  }
}
