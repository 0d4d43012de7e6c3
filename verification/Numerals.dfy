/** Numerals in base 10 and 16. */
module Numerals {

  const SYMBOLS: string := "0123456789abcdef"

  type Base = b: int | b == 10 || b == 16 witness 10

  function Symbol(d: int): char
    requires 0 <= d < 16
  {
    SYMBOLS[d]
  }

  function Digit(c: char): int {
    if '0' <= c <= '9' then c as int - '0' as int else if 'a' <= c <= 'f' then c as int - 'a' as int + 10 else 0
  }

  lemma SymbolDigit(d: int)
    requires 0 <= d < 16
    ensures Digit(Symbol(d)) == d
    ensures Symbol(d) !in {'|', '.', ':', '?', '<', 'n'}
  {
  }

  function Number(n: nat, base: Base): string {
    if n < base then [Symbol(n)] else Number(n / base, base) + [Symbol(n % base)]
  }

  function Read(s: string, base: Base): int {
    if s == [] then 0 else Read(s[..|s| - 1], base) * base + Digit(s[|s| - 1])
  }

  /** Only digits: none of the characters with a meaning in the text of an address. */
  predicate Plain(s: string) {
    forall i :: 0 <= i < |s| ==> s[i] !in {'|', '.', ':', '?', '<', 'n'}
  }

  lemma {:induction false} NumberReads(n: nat, base: Base)
    ensures Read(Number(n, base), base) == n && Number(n, base) != [] && Plain(Number(n, base))
  {
    var d := if n < base then n else n % base;
    SymbolDigit(d);
    if n < base {
      assert Number(n, base)[..0] == [];
    } else {
      NumberReads(n / base, base);
      var front := Number(n / base, base);
      assert (front + [Symbol(d)])[..|front|] == front;
      assert n / base * base + n % base == n;
    }
  }

  function Numbers(ns: seq<nat>, base: Base): seq<string> {
    seq(|ns|, i requires 0 <= i < |ns| => Number(ns[i], base))
  }

  function Reads(fields: seq<string>, base: Base): seq<int> {
    seq(|fields|, i requires 0 <= i < |fields| => Read(fields[i], base))
  }

  lemma NumbersRead(ns: seq<nat>, base: Base)
    ensures Reads(Numbers(ns, base), base) == ns
    ensures forall i :: 0 <= i < |ns| ==> Numbers(ns, base)[i] != [] && Plain(Numbers(ns, base)[i])
  {
    forall i | 0 <= i < |ns|
      ensures Read(Number(ns[i], base), base) == ns[i] && Number(ns[i], base) != [] && Plain(Number(ns[i], base))
    {
      NumberReads(ns[i], base);
    }
  }
}
