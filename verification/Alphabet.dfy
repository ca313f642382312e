/** The 24-letter system-call alphabet and the 12 argument buckets, as the server and the training tool each map them. */
module Alphabet {
  import opened Trace

  type Symbol = n: int | 0 <= n < 24
  type Bucket = n: int | 0 <= n < 12

  /** The server's switch. */
  function JavaSymbol(syscallId: int): Symbol {
    match syscallId
    case 59 => 0
    case 2 => 1
    case 257 => 1
    case 0 => 2
    case 1 => 3
    case 3 => 4
    case 4 => 5
    case 5 => 5
    case 42 => 6
    case 43 => 7
    case 44 => 8
    case 46 => 8
    case 45 => 9
    case 47 => 9
    case 41 => 10
    case 49 => 10
    case 50 => 10
    case 57 => 11
    case 56 => 11
    case 9 => 12
    case 10 => 12
    case 90 => 13
    case 91 => 13
    case 87 => 14
    case 84 => 14
    case 82 => 15
    case 102 => 16
    case 105 => 16
    case 160 => 17
    case 101 => 18
    case 165 => 19
    case 166 => 19
    case 12 => 20
    case 78 => 21
    case 162 => 22
    case _ => 23
  }

  /** The training tool's dictionary. */
  const PY_MAPPING: map<int, Symbol> := map[
    59 := 0, 2 := 1, 257 := 1, 0 := 2, 1 := 3, 3 := 4, 4 := 5, 5 := 5, 42 := 6, 43 := 7,
    44 := 8, 46 := 8, 45 := 9, 47 := 9, 41 := 10, 49 := 10, 50 := 10, 57 := 11, 56 := 11,
    9 := 12, 10 := 12, 90 := 13, 91 := 13, 87 := 14, 84 := 14, 82 := 15, 102 := 16, 105 := 16,
    160 := 17, 101 := 18, 165 := 19, 166 := 19, 12 := 20, 78 := 21, 162 := 22]

  function PySymbol(syscallId: int): Symbol {
    if syscallId in PY_MAPPING then PY_MAPPING[syscallId] else 23
  }

  lemma SymbolsAgree(syscallId: int)
    ensures JavaSymbol(syscallId) == PySymbol(syscallId)
  {
    if syscallId < 44 {
    } else if syscallId < 85 {
    } else {
    }
  }

  /** The calls behind each letter: execve, open, read, write, close, stat, connect, accept, send, recv, socket, and so on. */
  lemma CallsOf(id: int)
    ensures var s := JavaSymbol(id);
            && (s == 0 <==> id == 59) && (s == 1 <==> id in {2, 257}) && (s == 2 <==> id == 0) && (s == 3 <==> id == 1)
            && (s == 4 <==> id == 3) && (s == 5 <==> id in {4, 5}) && (s == 6 <==> id == 42) && (s == 7 <==> id == 43)
            && (s == 8 <==> id in {44, 46}) && (s == 9 <==> id in {45, 47}) && (s == 10 <==> id in {41, 49, 50})
            && (s == 11 <==> id in {56, 57}) && (s == 12 <==> id in {9, 10}) && (s == 13 <==> id in {90, 91})
            && (s == 14 <==> id in {84, 87}) && (s == 15 <==> id == 82) && (s == 16 <==> id in {102, 105})
            && (s == 17 <==> id == 160) && (s == 18 <==> id == 101) && (s == 19 <==> id in {165, 166})
            && (s == 20 <==> id == 12) && (s == 21 <==> id == 78) && (s == 22 <==> id == 162)
  {
  }

  /** Java's remainder takes the sign of its left operand. */
  function JavaRem(a: int, b: int): int
    requires 0 < b
  {
    if 0 <= a then a % b else -((-a) % b)
  }

  function JavaBucket(argClass: int, argBucket: int): Bucket {
    var idx := JavaRem(argClass * 4 + argBucket, 12);
    if idx < 0 || idx >= 12 then 11 else idx
  }

  function Min(a: int, b: int): int { if a < b then a else b }
  function Max(a: int, b: int): int { if a < b then b else a }

  /** Python's remainder by a positive number is never negative, as Dafny's. */
  function PyBucket(argClass: int, argBucket: int): Bucket {
    var idx := (argClass * 4 + argBucket) % 12;
    Max(0, Min(idx, 11))
  }

  /** The two foldings differ exactly on negative inputs that Python does not fold to the first or the last bucket. */
  lemma BucketsAgreeIff(argClass: int, argBucket: int)
    ensures JavaBucket(argClass, argBucket) == PyBucket(argClass, argBucket)
            <==> 0 <= argClass * 4 + argBucket || (argClass * 4 + argBucket) % 12 in {0, 11}
    ensures 0 <= argClass * 4 + argBucket ==> JavaBucket(argClass, argBucket) == (argClass * 4 + argBucket) % 12
    ensures argClass * 4 + argBucket < 0 ==> JavaBucket(argClass, argBucket) == if (argClass * 4 + argBucket) % 12 == 0 then 0 else 11
    ensures PyBucket(argClass, argBucket) == (argClass * 4 + argBucket) % 12
  {
  }

  function JavaSymbols(rs: seq<Record>): seq<Symbol> { seq(|rs|, i requires 0 <= i < |rs| => JavaSymbol(rs[i].syscallId)) }
  function PySymbols(rs: seq<Record>): seq<Symbol> { seq(|rs|, i requires 0 <= i < |rs| => PySymbol(rs[i].syscallId)) }
  function JavaBuckets(rs: seq<Record>): seq<Bucket> { seq(|rs|, i requires 0 <= i < |rs| => JavaBucket(rs[i].argClass, rs[i].argBucket)) }
  function PyBuckets(rs: seq<Record>): seq<Bucket> { seq(|rs|, i requires 0 <= i < |rs| => PyBucket(rs[i].argClass, rs[i].argBucket)) }
}
