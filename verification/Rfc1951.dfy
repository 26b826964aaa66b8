/** The header of a block with dynamic Huffman codes as RFC 1951 has it read. Nothing here comes from the sender: the
    numbers, the order of bits and codes, and the alphabet are those of the standard. */
module Rfc1951 {

  datatype Received<T> = Broken | Received(value: T, rest: seq<bool>)

  // Section 3.1.1: the order of bits

  /** A number, its least significant bit first. */
  function Number(bits: seq<bool>): nat {
    if bits == [] then 0 else (if bits[0] then 1 else 0) + 2 * Number(bits[1..])
  }

  function ReadNumber(bits: seq<bool>, width: nat): (r: Received<nat>)
    ensures r.Received? ==> |r.rest| <= |bits|
  {
    if |bits| < width then Broken else Received(Number(bits[..width]), bits[width..])
  }

  // Section 3.2.2: codes from lengths

  function Power(n: nat): nat {
    if n == 0 then 1 else 2 * Power(n - 1)
  }

  /** What the first `upto` symbols take of the codes before that of symbol n: shorter codes come before longer ones, and
      codes of one length follow each other in the order of their symbols. */
  function Taken(lens: seq<nat>, n: nat, upto: nat): nat
    requires n < |lens| && upto <= |lens|
  {
    if upto == 0 then 0
    else
      var m, len := upto - 1, lens[upto - 1];
      Taken(lens, n, m) + if 0 < len < lens[n] || (len == lens[n] && m < n) then Power(lens[n] - len) else 0
  }

  function Code(lens: seq<nat>, n: nat): nat
    requires n < |lens|
  {
    Taken(lens, n, |lens|)
  }

  /** The first symbol, from the given one on, that has this code of this length; the number of symbols if none has. */
  function SymbolOf(lens: seq<nat>, len: nat, code: nat, from: nat): (s: nat)
    requires from <= |lens|
    ensures s <= |lens|
    decreases |lens| - from
  {
    if from == |lens| then from
    else if lens[from] == len && Code(lens, from) == code then from
    else SymbolOf(lens, len, code, from + 1)
  }

  /** A symbol whose code, the most significant bit first, goes on behind the `len` bits read so far. */
  function ReadSymbol(bits: seq<bool>, lens: seq<nat>, len: nat, code: nat): (r: Received<nat>)
    ensures r.Received? ==> |r.rest| <= |bits| && (len == 0 ==> |r.rest| < |bits|)
    decreases |bits|
  {
    if len > 0 && SymbolOf(lens, len, code, 0) < |lens| then Received(SymbolOf(lens, len, code, 0), bits)
    else if bits == [] then Broken
    else ReadSymbol(bits[1..], lens, len + 1, 2 * code + if bits[0] then 1 else 0)
  }

  // Section 3.2.7: the code lengths

  function Repeated(x: nat, n: nat): seq<nat> {
    seq(n, _ => x)
  }

  /** Code lengths, until `want` of them are there: 0 to 15 stand for themselves, 16 copies the previous one 3 to 6 times,
      17 and 18 repeat zero 3 to 10 and 11 to 138 times. */
  function ReadLengths(bits: seq<bool>, lens: seq<nat>, want: nat, sofar: seq<nat>): Received<seq<nat>>
    decreases |bits|
  {
    if |sofar| >= want then Received(sofar, bits)
    else
      match ReadSymbol(bits, lens, 0, 0)
      case Broken => Broken
      case Received(s, rest) =>
        if s <= 15 then ReadLengths(rest, lens, want, sofar + [s])
        else if s == 16 then
          match ReadNumber(rest, 2)
          case Broken => Broken
          case Received(n, rest') =>
            if sofar == [] then Broken else ReadLengths(rest', lens, want, sofar + Repeated(sofar[|sofar| - 1], n + 3))
        else if s == 17 then
          match ReadNumber(rest, 3)
          case Broken => Broken
          case Received(n, rest') => ReadLengths(rest', lens, want, sofar + Repeated(0, n + 3))
        else if s == 18 then
          match ReadNumber(rest, 7)
          case Broken => Broken
          case Received(n, rest') => ReadLengths(rest', lens, want, sofar + Repeated(0, n + 11))
        else Broken
  }

  /** The order in which the lengths of the code for code lengths come. */
  const ORDER: seq<nat> := [16, 17, 18, 0, 8, 7, 9, 6, 10, 5, 11, 4, 12, 3, 13, 2, 14, 1, 15]

  /** Those lengths, three bits each, from the given rank on, over the ones known so far. */
  function ReadOrdered(bits: seq<bool>, n: nat, rank: nat, lens: seq<nat>): (r: Received<seq<nat>>)
    requires n <= 19 == |lens|
    ensures r.Received? ==> |r.value| == 19
    decreases n - rank
  {
    if rank >= n then Received(lens, bits)
    else
      match ReadNumber(bits, 3)
      case Broken => Broken
      case Received(len, rest) => ReadOrdered(rest, n, rank + 1, lens[ORDER[rank] := len])
  }

  /** HLIT, HDIST and HCLEN. */
  function ReadCounts(bits: seq<bool>): Received<(nat, nat, nat)> {
    match ReadNumber(bits, 5)
    case Broken => Broken
    case Received(l, rest) =>
      match ReadNumber(rest, 5)
      case Broken => Broken
      case Received(d, rest') =>
        match ReadNumber(rest', 4)
        case Broken => Broken
        case Received(b, rest'') => Received((l + 257, d + 1, b + 4), rest'')
  }

  /** The lengths of both alphabets: one sequence, whose repetitions may cross from one to the other. */
  function ReadBoth(bits: seq<bool>, lcodes: nat, dcodes: nat, lens: seq<nat>): Received<(seq<nat>, seq<nat>)> {
    match ReadLengths(bits, lens, lcodes + dcodes, [])
    case Broken => Broken
    case Received(all, rest) => if |all| != lcodes + dcodes then Broken else Received((all[..lcodes], all[lcodes..]), rest)
  }

  /** The header behind the type of the block. */
  function ReadTrees(bits: seq<bool>): Received<(seq<nat>, seq<nat>)> {
    match ReadCounts(bits)
    case Broken => Broken
    case Received(counts, rest) =>
      if counts.2 > 19 then Broken
      else
        match ReadOrdered(rest, counts.2, 0, Repeated(0, 19))
        case Broken => Broken
        case Received(lens, rest') => ReadBoth(rest', counts.0, counts.1, lens)
  }
}
