/** Physical pages and the page allocator. A page holds 512 words; a free page's first word is the
    address of the next free page. */
module PageMemory {

  const PGSIZE: nat := 4096
  const WORDS: nat := 512

  /** Every byte of the page set to 1 (on free) or 5 (on allocation). */
  const JUNK_FREED: nat := 0x0101010101010101
  const JUNK_ALLOCATED: nat := 0x0505050505050505

  function Filled(w: nat): (p: seq<int>)
    ensures |p| == WORDS && forall i :: 0 <= i < WORDS ==> p[i] == w
  {
    seq(WORDS, _ => w)
  }

  function Head(free: seq<nat>): nat {
    if free == [] then 0 else free[0]
  }

  predicate DistinctPages(s: seq<nat>) {
    forall i, j :: 0 <= i < j < |s| ==> s[i] != s[j]
  }

  /** Each free page but the last names the next one in its first word. */
  ghost predicate Linked(mem: map<nat, seq<int>>, free: seq<nat>) {
    forall i :: 0 <= i < |free| ==> free[i] in mem && |mem[free[i]]| == WORDS && mem[free[i]][0] == PGSIZE * Head(free[i + 1..])
  }

  /** Taking the first page off the list leaves the rest linked, whatever is then written to the page. */
  lemma RestLinked(mem: map<nat, seq<int>>, free: seq<nat>, page: seq<int>)
    requires free != [] && DistinctPages(free) && Linked(mem, free)
    ensures DistinctPages(free[1..]) && Linked(mem[free[0] := page], free[1..])
    ensures free[0] in mem && |mem[free[0]]| == WORDS && mem[free[0]][0] / PGSIZE == Head(free[1..]) && free[0] !in free[1..]
    ensures (set p | p in free[1..]) == (set p | p in free) - {free[0]}
  {
    var rest := free[1..];
    forall i | 0 <= i < |rest| ensures rest[i] == free[i + 1] && rest[i + 1..] == free[i + 2..] {
    }
    assert free == [free[0]] + rest;
  }

  /** Page numbers stand for page addresses; 0 is the null pointer. */
  class KernelMemory {
    const first: nat
    const limit: nat
    var mem: map<nat, seq<int>>
    var freelist: nat
    ghost var free: seq<nat>

    predicate InRam(p: nat) {
      first <= p < limit
    }

    ghost predicate Valid()
      reads this
    {
      && 0 < first <= limit
      && (forall p :: InRam(p) <==> p in mem)
      && (forall p :: p in mem ==> |mem[p]| == WORDS)
      && DistinctPages(free)
      && Linked(mem, free)
      && freelist == Head(free)
    }

    ghost function FreeSet(): (s: set<nat>)
      reads this`free
    {
      set p | p in free
    }

    /** All pages of the range handed to the allocator, one by one. */
    constructor (first: nat, limit: nat, contents: map<nat, seq<int>>)
      requires 0 < first <= limit
      requires forall p :: first <= p < limit <==> p in contents
      requires forall p :: p in contents ==> |contents[p]| == WORDS
      ensures Valid() && this.first == first && this.limit == limit
      ensures FreeSet() == contents.Keys
    {
      this.first, this.limit := first, limit;
      mem, freelist, free := contents, 0, [];
      new;
      var p := first;
      while p + 1 <= limit
        invariant first <= p <= limit
        invariant Valid() && forall q :: q in free <==> first <= q < p
      {
        Kfree(p);
        p := p + 1;
      }
    }

    /** Put an allocated page back on the free list. */
    method Kfree(p: nat)
      requires Valid() && InRam(p) && p !in free
      modifies this
      ensures Valid()
      ensures free == [p] + old(free)
      ensures FreeSet() == old(FreeSet()) + {p}
      ensures mem.Keys == old(mem.Keys) && forall q :: q in mem && q != p ==> mem[q] == old(mem[q])
    {
      mem := mem[p := Filled(JUNK_FREED)];
      var next: nat := PGSIZE * freelist;
      mem := mem[p := mem[p][0 := next]];
      freelist := p;
      free := [p] + free;
      assert free[1..] == old(free);
      assert forall i :: 1 <= i < |free| ==> free[i + 1..] == old(free)[i..];
    }

    /** Take the most recently freed page, or return 0 if there is none. */
    method Kalloc() returns (p: nat)
      requires Valid()
      modifies this
      ensures Valid()
      ensures old(free) == [] ==> p == 0 && free == [] && mem == old(mem)
      ensures old(free) != [] ==>
                && p == old(free)[0] && free == old(free)[1..] && p in mem && p != 0
                && mem == old(mem)[p := Filled(JUNK_ALLOCATED)]
                && p !in free && FreeSet() == old(FreeSet()) - {p}
    {
      hide Linked, DistinctPages;
      if free != [] {
        RestLinked(mem, free, Filled(JUNK_ALLOCATED));
      }
      p := freelist;
      if p != 0 {
        freelist := mem[p][0] / PGSIZE;
        free := free[1..];
        mem := mem[p := Filled(JUNK_ALLOCATED)];
      }
    }

    /** Fill an allocated page with zeroes. */
    method Zero(p: nat)
      requires Valid() && p in mem && p !in free
      modifies this`mem
      ensures Valid() && mem == old(mem)[p := Filled(0)]
    {
      mem := mem[p := Filled(0)];
    }
  }
}
