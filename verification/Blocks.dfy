/** Keys and payloads of the in-memory block cache. */
module Blocks {
  newtype byte = x: int | 0 <= x < 256

  /** The key of one cached range of a remote file. */
  datatype Block = Block(fname: string, start: nat, size: nat)

  /** A cached payload with the version tag it was stored under. */
  datatype CacheEntry = CacheEntry(bytes: seq<byte>, tag: string)

  /** A page-aligned buffer: its valid bytes and its allocated size. */
  datatype Chunk = Chunk(bytes: seq<byte>, capacity: nat)

  /** An empty expected tag switches validation off. */
  predicate ValidTag(cached: string, expected: string) {
    expected == "" || cached == expected
  }

  predicate StringLess(a: string, b: string) {
    if b == "" then false
    else if a == "" then true
    else if a[0] != b[0] then a[0] < b[0]
    else StringLess(a[1..], b[1..])
  }

  /** The tuple order of (fname, start, size) that the ordered maps iterate in. */
  predicate BlockLess(a: Block, b: Block) {
    if a.fname != b.fname then StringLess(a.fname, b.fname)
    else if a.start != b.start then a.start < b.start
    else a.size < b.size
  }

  lemma {:induction false} StringTrichotomy(a: string, b: string)
    ensures a == b ==> !StringLess(a, b)
    ensures a != b ==> (StringLess(a, b) <==> !StringLess(b, a))
  {
    if a != "" && b != "" && a[0] == b[0] {
      StringTrichotomy(a[1..], b[1..]);
      assert a == [a[0]] + a[1..] && b == [b[0]] + b[1..];
    }
  }

  lemma {:induction false} StringTransitive(a: string, b: string, c: string)
    requires StringLess(a, b) && StringLess(b, c)
    ensures StringLess(a, c)
  {
    if a != "" && a[0] == b[0] == c[0] {
      StringTransitive(a[1..], b[1..], c[1..]);
    }
  }

  /** Not being after is transitive. */
  lemma NotAfterTransitive(a: string, b: string, c: string)
    requires !StringLess(b, a) && !StringLess(c, b)
    ensures !StringLess(c, a)
  {
    StringTrichotomy(a, b);
    StringTrichotomy(b, c);
    StringTrichotomy(a, c);
    if StringLess(a, b) && StringLess(b, c) {
      StringTransitive(a, b, c);
    }
  }
}
