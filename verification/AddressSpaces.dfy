/**
  What an address means in a page directory (Intel Software Developer's Manual, volume 3A, section 4.3: 4 MiB pages),
  and which addresses the operations of src/paging.c map, in terms of the addresses alone.
*/
module AddressSpaces {
  import opened Wrappers
  import opened Bytes
  import opened Paging

  /** The physical address behind a virtual one: the top ten bits choose the entry, the rest is the offset. */
  function Translate(dir: PageDirectory, address: u32): Option<nat> {
    var e := dir[address / 0x40_0000];
    if e.present && e.pageSize4Mb then Some(0x40_0000 * e.frame + address % 0x40_0000) else None
  }

  /** A user program may read and write at the address. */
  predicate UserMay(dir: PageDirectory, address: u32) {
    var e := dir[address / 0x40_0000];
    e.present && e.user && e.write
  }

  /** The kernel may write at the address. */
  predicate KernelMay(dir: PageDirectory, address: u32) {
    var e := dir[address / 0x40_0000];
    e.present && e.write
  }

  predicate SamePage(a: u32, b: u32) {
    a / 0x40_0000 == b / 0x40_0000
  }

  /** The page of a is frame f, for the user to read and write. */
  predicate MapsPage(dir: PageDirectory, a: u32, f: nat) {
    forall b: u32 :: SamePage(a, b) ==> UserMay(dir, b) && Translate(dir, b) == Some(0x40_0000 * f + b % 0x40_0000)
  }

  /** Nothing is mapped in the page of a. */
  predicate Unmapped(dir: PageDirectory, a: u32) {
    forall b: u32 :: SamePage(a, b) ==> Translate(dir, b) == None && !UserMay(dir, b)
  }

  /** At the addresses of all other pages the two directories agree. */
  predicate SameElsewhere(dir: PageDirectory, prior: PageDirectory, a: u32) {
    forall b: u32 :: !SamePage(a, b) ==>
      && Translate(dir, b) == Translate(prior, b) && (UserMay(dir, b) <==> UserMay(prior, b))
      && (KernelMay(dir, b) <==> KernelMay(prior, b))
  }

  /** Frame f is the lowest that is free, frame 0 aside; 32 when there is none. */
  predicate LowestFree(frames: Flags, f: nat) {
    1 <= f <= 32 && (forall i :: 1 <= i < f ==> frames[i]) && (f < 32 ==> !frames[f])
  }

  lemma LowestIsFirstClear(frames: Flags, f: nat)
    requires LowestFree(frames, f)
    ensures FirstClear(frames, 1) == f
  {
    var k := FirstClear(frames, 1);
    assert !(k < f) && !(f < k);
  }

  /** paging_allocate_user_page_frame gives the page of the address the lowest free frame and touches nothing else; when
      no frame is left nothing changes. */
  lemma AllocationMaps(s: State, d: nat, a: u32, f: nat)
    requires d < 32 && LowestFree(s.frames, f)
    ensures var t := AllocateFrame(s, d, a);
      if f == 32 then t == s
      else
        && MapsPage(t.dirs[d], a, f) && SameElsewhere(t.dirs[d], s.dirs[d], a)
        && (forall c :: 0 <= c < 32 && c != d ==> t.dirs[c] == s.dirs[c])
        && t.frames == s.frames[f := true] && t.free == s.free - 1
        && t.used == s.used && t.base == s.base && t.cr3 == s.cr3
  {
    LowestIsFirstClear(s.frames, f);
    EntryOfPage(a);
    forall b: u32
      ensures SamePage(a, b) <==> b / 0x40_0000 == EntryIndex(a)
    {
    }
  }

  lemma EntryOfPage(a: u32)
    ensures EntryIndex(a) == a / 0x40_0000
  {
  }

  /** paging_free_user_page_frame unmaps the page of the address and gives its frame back. */
  lemma ReleaseUnmaps(s: State, d: nat, a: u32, f: nat)
    requires d < 32 && f < 32 && Translate(s.dirs[d], a) == Some(0x40_0000 * f + a % 0x40_0000)
    ensures s.dirs[d][EntryIndex(a)].frame < 32
    ensures var t := FreeFrame(s, d, a);
      && Unmapped(t.dirs[d], a) && SameElsewhere(t.dirs[d], s.dirs[d], a)
      && (forall c :: 0 <= c < 32 && c != d ==> t.dirs[c] == s.dirs[c])
      && t.frames == s.frames[f := false] && t.free == s.free + 1
      && t.used == s.used && t.base == s.base && t.cr3 == s.cr3
  {
    EntryOfPage(a);
  }

  /** Nothing is mapped at any address. */
  predicate Empty(dir: PageDirectory) {
    forall b: u32 :: Translate(dir, b) == None && !UserMay(dir, b)
  }

  /** The addresses of the kernel's first four megabytes lead to physical memory from 0 on, out of the user's reach. */
  predicate KernelPage(dir: PageDirectory) {
    forall b: u32 :: SamePage(0xC000_0000, b) ==>
      Translate(dir, b) == Some(b - 0xC000_0000) && KernelMay(dir, b) && !UserMay(dir, b)
  }

  /** paging_create_new_page_directory takes the first directory not in use, and maps the kernel's page in it. */
  lemma NewDirectoryMaps(s: State)
    requires Isolated(s)
    ensures var (t, d) := CreateDirectory(s);
      if d == 32 then t == s && forall c :: 0 <= c < 32 ==> s.used[c]
      else
        && !s.used[d] && (forall c :: 0 <= c < d ==> s.used[c]) && t.used == s.used[d := true]
        && KernelPage(t.dirs[d]) && Empty(s.dirs[d]) && SameElsewhere(t.dirs[d], s.dirs[d], 0xC000_0000)
        && (forall c :: 0 <= c < 32 && c != d ==> t.dirs[c] == s.dirs[c])
        && t.frames == s.frames && t.free == s.free && t.base == s.base && t.cr3 == s.cr3
  {
    hide CountTrue;
    var d := CreateDirectory(s).1;
    if d < 32 {
      assert s.dirs[d] == ClearDirectory();
      forall b: u32
        ensures SamePage(0xC000_0000, b) <==> b / 0x40_0000 == 0x300
      {
      }
    }
  }

  /** The second lowest free frame. */
  predicate NextFree(frames: Flags, f: nat, g: nat) {
    f < 32 ==> f < g <= 32 && (forall i :: f < i < g ==> frames[i]) && (g < 32 ==> !frames[g])
  }

  lemma NextIsLowest(frames: Flags, f: nat, g: nat)
    requires LowestFree(frames, f) && NextFree(frames, f, g) && f < 32
    ensures LowestFree(frames[f := true], g)
  {
  }

  /** What a new process can reach: the page of its entry point is the lowest free frame f, that of the top of its stack
      the second lowest g, and there is nothing else but the kernel's page. Frames that are not left are missing, and if
      both pages are one it is mapped twice. */
  predicate NewSpace(dir: PageDirectory, entry: u32, f: nat, g: nat) {
    && KernelPage(dir)
    && (forall b: u32 :: !SamePage(entry, b) && !SamePage(0xBFFF_FFFC, b) && !SamePage(0xC000_0000, b) ==>
          Translate(dir, b) == None && !UserMay(dir, b))
    && (if SamePage(entry, 0xBFFF_FFFC) then
          if f == 32 then Unmapped(dir, entry) else MapsPage(dir, entry, if g < 32 then g else f)
        else
          && (if f == 32 then Unmapped(dir, entry) else MapsPage(dir, entry, f))
          && (if f == 32 || g == 32 then Unmapped(dir, 0xBFFF_FFFC) else MapsPage(dir, 0xBFFF_FFFC, g)))
  }

  lemma ProvidedSpace(s: State, entry: u32, f: nat, g: nat)
    requires Isolated(s) && CreateDirectory(s).1 < 32 && entry < 0xC000_0000
    requires LowestFree(s.frames, f) && NextFree(s.frames, f, g)
    ensures var t, d := Provide(s, entry), CreateDirectory(s).1;
      && NewSpace(t.dirs[d], entry, f, g)
      && (forall c :: 0 <= c < 32 && c != d ==> t.dirs[c] == s.dirs[c])
      && t.frames == (if f == 32 then s.frames else if g == 32 then s.frames[f := true]
                      else s.frames[f := true][g := true])
  {
    hide Isolated, CreateDirectory, AllocateFrame, Translate, UserMay, KernelMay;
    var (s1, d) := CreateDirectory(s);
    NewDirectoryMaps(s);
    AllocationMaps(s1, d, entry, f);
    var s2 := AllocateFrame(s1, d, entry);
    if f == 32 {
      AllocationMaps(s2, d, 0xBFFF_FFFC, f);
    } else {
      NextIsLowest(s.frames, f, g);
      AllocationMaps(s2, d, 0xBFFF_FFFC, g);
    }
    assert !SamePage(entry, 0xC000_0000) && !SamePage(0xBFFF_FFFC, 0xC000_0000);
  }
}
