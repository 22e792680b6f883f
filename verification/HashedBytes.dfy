/** The bytes that reach the hash: each update encodes its string, a list of UTF-16 code units, as UTF-8. */
module HashedBytes {
  import opened Common
  import opened StableParts

  type CodeUnit = u: int | 0 <= u < 0x1_0000

  predicate High(u: CodeUnit) { 0xD800 <= u < 0xDC00 }
  predicate Low(u: CodeUnit) { 0xDC00 <= u < 0xE000 }

  predicate IsPair(s: seq<CodeUnit>) {
    |s| >= 2 && High(s[0]) && Low(s[1])
  }

  const Replacement: CodeUnit := 0xFFFD

  function PairValue(high: CodeUnit, low: CodeUnit): int {
    0x1_0000 + (high - 0xD800) * 0x400 + (low - 0xDC00)
  }

  /** Surrogate pairs are joined; a surrogate without its partner becomes U+FFFD. */
  function Scalars(s: seq<CodeUnit>): seq<int> {
    if s == [] then []
    else if IsPair(s) then [PairValue(s[0], s[1])] + Scalars(s[2..])
    else if High(s[0]) || Low(s[0]) then [Replacement] + Scalars(s[1..])
    else [s[0]] + Scalars(s[1..])
  }

  predicate IsScalar(c: int) {
    0 <= c < 0xD800 || 0xE000 <= c < 0x11_0000
  }

  function Utf8Of(c: int): seq<int> {
    var c1, c2, c3 := c / 0x40, c / 0x40 / 0x40, c / 0x40 / 0x40 / 0x40;
    if c < 0x80 then [c]
    else if c < 0x800 then [0xC0 + c1, 0x80 + c % 0x40]
    else if c < 0x1_0000 then [0xE0 + c2, 0x80 + c1 % 0x40, 0x80 + c % 0x40]
    else [0xF0 + c3, 0x80 + c2 % 0x40, 0x80 + c1 % 0x40, 0x80 + c % 0x40]
  }

  /** The scalar behind one encoding. */
  function Utf8Value(b: seq<int>): int {
    if |b| == 1 then b[0]
    else if |b| == 2 then (b[0] - 0xC0) * 0x40 + b[1] - 0x80
    else if |b| == 3 then ((b[0] - 0xE0) * 0x40 + b[1] - 0x80) * 0x40 + b[2] - 0x80
    else if |b| == 4 then (((b[0] - 0xF0) * 0x40 + b[1] - 0x80) * 0x40 + b[2] - 0x80) * 0x40 + b[3] - 0x80
    else 0
  }

  function Flat<T, U>(xs: seq<T>, f: T -> seq<U>): seq<U> {
    if xs == [] then [] else Flat(xs[..|xs| - 1], f) + f(xs[|xs| - 1])
  }

  /** What one `hash.update(s)` feeds. */
  function BytesOf(s: seq<CodeUnit>): seq<int> {
    Flat(Scalars(s), Utf8Of)
  }

  predicate IsAscii(s: seq<CodeUnit>) {
    forall i :: 0 <= i < |s| ==> s[i] < 0x80
  }

  function Ascii(s: string): (r: seq<CodeUnit>)
    ensures |r| == |s| && IsAscii(r)
  {
    Map(s, c => if c as int < 0x80 then c as int else 0)
  }

  function PartBytes(part: seq<CodeUnit>): seq<int> {
    BytesOf(Ascii(Decimal(|part|))) + BytesOf(Ascii(":")) + BytesOf(part) + BytesOf(Ascii("\n"))
  }

  function HashedBytes(parts: seq<seq<CodeUnit>>): seq<int> {
    Flat(parts, PartBytes)
  }

  /** The four updates for each part, as the hash sees them. */
  method FeedHash(parts: seq<seq<CodeUnit>>) returns (bytes: seq<int>)
    ensures bytes == HashedBytes(parts)
  {
    bytes := [];
    for i := 0 to |parts|
      invariant bytes == HashedBytes(parts[..i])
    {
      assert parts[..i + 1][..i] == parts[..i];
      ghost var before := bytes;
      bytes := bytes + BytesOf(Ascii(Decimal(|parts[i]|)));
      bytes := bytes + BytesOf(Ascii(":"));
      bytes := bytes + BytesOf(parts[i]);
      bytes := bytes + BytesOf(Ascii("\n"));
      assert bytes == before + PartBytes(parts[i]);
    }
    assert parts[..|parts|] == parts;
  }

  /** `toWellFormed`: every surrogate without its partner replaced. */
  function Repair(s: seq<CodeUnit>): (r: seq<CodeUnit>)
    ensures |r| == |s|
  {
    if s == [] then []
    else if IsPair(s) then [s[0], s[1]] + Repair(s[2..])
    else if High(s[0]) || Low(s[0]) then [Replacement] + Repair(s[1..])
    else [s[0]] + Repair(s[1..])
  }

  predicate IsWellFormed(s: seq<CodeUnit>) {
    Repair(s) == s
  }

  function Repaired(parts: seq<seq<CodeUnit>>): (r: seq<seq<CodeUnit>>)
    ensures |r| == |parts|
  {
    Map(parts, Repair)
  }

  // ----- lists of lists -----

  lemma {:induction false} FlatSnoc<T, U>(xs: seq<T>, x: T, f: T -> seq<U>)
    ensures Flat(xs + [x], f) == Flat(xs, f) + f(x)
  {
    assert (xs + [x])[..|xs|] == xs;
  }

  lemma {:induction false} FlatConcat<T, U>(xs: seq<T>, ys: seq<T>, f: T -> seq<U>)
    ensures Flat(xs + ys, f) == Flat(xs, f) + Flat(ys, f)
    decreases |ys|
  {
    if ys == [] {
      assert xs + ys == xs;
    } else {
      var init, y := ys[..|ys| - 1], ys[|ys| - 1];
      SplitLast(ys);
      ConcatAssociative(xs, init, [y]);
      FlatSnoc(xs + init, y, f);
      FlatConcat(xs, init, f);
      ConcatAssociative(Flat(xs, f), Flat(init, f), f(y));
    }
  }

  lemma {:induction false} FlatOne<T, U>(x: T, f: T -> seq<U>)
    ensures Flat([x], f) == f(x)
  {
    assert [x][..0] == [];
  }

  lemma {:induction false} FlatCons<T, U>(x: T, xs: seq<T>, f: T -> seq<U>)
    ensures Flat([x] + xs, f) == f(x) + Flat(xs, f)
  {
    FlatConcat([x], xs, f);
    FlatOne(x, f);
  }

  // ----- UTF-8 loses nothing -----

  lemma {:induction false} Utf8HeadDecides(c: int, d: int, s: seq<int>, t: seq<int>)
    requires IsScalar(c) && IsScalar(d) && Utf8Of(c) + s == Utf8Of(d) + t
    ensures c == d && s == t
  {
    var u, v := Utf8Of(c) + s, Utf8Of(d) + t;
    assert u[0] == Utf8Of(c)[0] && v[0] == Utf8Of(d)[0];
    FirstByteDecidesLength(c, d);
    var n := |Utf8Of(c)|;
    assert u[..n] == Utf8Of(c) && v[..n] == Utf8Of(d) && u[n..] == s && v[n..] == t;
    Utf8ValueOf(c);
    Utf8ValueOf(d);
  }

  lemma {:induction false} FirstByteDecidesLength(c: int, d: int)
    requires IsScalar(c) && IsScalar(d) && Utf8Of(c)[0] == Utf8Of(d)[0]
    ensures |Utf8Of(c)| == |Utf8Of(d)|
  {
  }

  lemma {:induction false} Utf8ValueOf(c: int)
    ensures Utf8Value(Utf8Of(c)) == c
  {
  }

  ghost predicate AllScalars(cs: seq<int>) {
    forall i :: 0 <= i < |cs| ==> IsScalar(cs[i])
  }

  lemma {:induction false} Utf8Decides(a: seq<int>, b: seq<int>)
    requires AllScalars(a) && AllScalars(b) && Flat(a, Utf8Of) == Flat(b, Utf8Of)
    ensures a == b
    decreases |a|
  {
    if a == [] || b == [] {
      EmptyBytes(a);
      EmptyBytes(b);
    } else {
      assert a == [a[0]] + a[1..] && b == [b[0]] + b[1..];
      FlatCons(a[0], a[1..], Utf8Of);
      FlatCons(b[0], b[1..], Utf8Of);
      Utf8HeadDecides(a[0], b[0], Flat(a[1..], Utf8Of), Flat(b[1..], Utf8Of));
      Utf8Decides(a[1..], b[1..]);
    }
  }

  lemma {:induction false} EmptyBytes(cs: seq<int>)
    ensures Flat(cs, Utf8Of) == [] <==> cs == []
  {
    if cs != [] {
      assert |Flat(cs, Utf8Of)| >= |Utf8Of(cs[|cs| - 1])| > 0;
    }
  }

  lemma {:induction false} ScalarsAreScalars(s: seq<CodeUnit>)
    ensures AllScalars(Scalars(s))
    decreases |s|
  {
    if s != [] {
      ScalarsAreScalars(if IsPair(s) then s[2..] else s[1..]);
    }
  }

  // ----- back to code units -----

  function UnitsOf(c: int): seq<CodeUnit> {
    if 0 <= c < 0x1_0000 then [c]
    else if 0x1_0000 <= c < 0x11_0000 then [0xD800 + (c - 0x1_0000) / 0x400, 0xDC00 + (c - 0x1_0000) % 0x400]
    else []
  }

  lemma {:induction false} PairRoundTrip(high: CodeUnit, low: CodeUnit)
    requires High(high) && Low(low)
    ensures UnitsOf(PairValue(high, low)) == [high, low]
  {
    var n, m := high - 0xD800, low - 0xDC00;
    assert PairValue(high, low) - 0x1_0000 == n * 0x400 + m;
    assert (n * 0x400 + m) / 0x400 == n && (n * 0x400 + m) % 0x400 == m;
  }

  lemma {:induction false} UnitsOfScalars(s: seq<CodeUnit>)
    ensures Flat(Scalars(s), UnitsOf) == Repair(s)
    decreases |s|
  {
    if IsPair(s) {
      UnitsOfScalars(s[2..]);
      PairRoundTrip(s[0], s[1]);
      FlatCons(PairValue(s[0], s[1]), Scalars(s[2..]), UnitsOf);
    } else if s != [] {
      UnitsOfScalars(s[1..]);
      FlatCons(if High(s[0]) || Low(s[0]) then Replacement else s[0], Scalars(s[1..]), UnitsOf);
    }
  }

  lemma {:induction false} RepairKeepsScalars(s: seq<CodeUnit>)
    ensures Scalars(Repair(s)) == Scalars(s)
    decreases |s|
  {
    var r := Repair(s);
    if IsPair(s) {
      RepairKeepsScalars(s[2..]);
      assert IsPair(r) && r[2..] == Repair(s[2..]);
    } else if s != [] {
      RepairKeepsScalars(s[1..]);
      assert r[1..] == Repair(s[1..]) && r[0] == if High(s[0]) || Low(s[0]) then Replacement else s[0];
    }
  }

  lemma {:induction false} AsciiIsItself(s: seq<CodeUnit>)
    requires IsAscii(s)
    ensures Scalars(s) == s && Repair(s) == s
    decreases |s|
  {
    if s != [] {
      AsciiIsItself(s[1..]);
      assert s == [s[0]] + s[1..];
    }
  }

  // ----- one part -----

  function PartUnits(part: seq<CodeUnit>): seq<CodeUnit> {
    Ascii(Decimal(|part|)) + Ascii(":") + part + Ascii("\n")
  }

  function PartScalars(part: seq<CodeUnit>): seq<int> {
    Scalars(Ascii(Decimal(|part|))) + Scalars(Ascii(":")) + Scalars(part) + Scalars(Ascii("\n"))
  }

  lemma {:induction false} FlatFour<U>(a: seq<int>, b: seq<int>, c: seq<int>, d: seq<int>, f: int -> seq<U>)
    ensures Flat(a + b + c + d, f) == Flat(a, f) + Flat(b, f) + Flat(c, f) + Flat(d, f)
  {
    FlatConcat(a + b + c, d, f);
    FlatConcat(a + b, c, f);
    FlatConcat(a, b, f);
  }

  lemma {:induction false} BytesOfPart(part: seq<CodeUnit>)
    ensures Flat(PartScalars(part), Utf8Of) == PartBytes(part)
  {
    FlatFour(Scalars(Ascii(Decimal(|part|))), Scalars(Ascii(":")), Scalars(part), Scalars(Ascii("\n")), Utf8Of);
  }

  lemma {:induction false} UnitsOfPart(part: seq<CodeUnit>)
    ensures Flat(PartScalars(part), UnitsOf) == PartUnits(Repair(part))
  {
    hide Flat, Scalars, Ascii, Decimal, Repair, IsAscii;
    var head, colon, line := Ascii(Decimal(|part|)), Ascii(":"), Ascii("\n");
    FlatFour(Scalars(head), Scalars(colon), Scalars(part), Scalars(line), UnitsOf);
    UnitsOfScalars(head);
    UnitsOfScalars(colon);
    UnitsOfScalars(part);
    UnitsOfScalars(line);
    AsciiIsItself(head);
    AsciiIsItself(colon);
    AsciiIsItself(line);
  }

  lemma {:induction false} PartScalarsAreScalars(part: seq<CodeUnit>)
    ensures AllScalars(PartScalars(part))
  {
    ScalarsAreScalars(Ascii(Decimal(|part|)));
    ScalarsAreScalars(Ascii(":"));
    ScalarsAreScalars(part);
    ScalarsAreScalars(Ascii("\n"));
  }

  // ----- whole lists -----

  lemma {:induction false} FlatOfFlat<U>(parts: seq<seq<CodeUnit>>, f: int -> seq<U>)
    ensures Flat(Flat(parts, PartScalars), f) == Flat(parts, p => Flat(PartScalars(p), f))
    decreases |parts|
  {
    if parts != [] {
      var init, last := parts[..|parts| - 1], parts[|parts| - 1];
      FlatOfFlat(init, f);
      FlatConcat(Flat(init, PartScalars), PartScalars(last), f);
    }
  }

  lemma {:induction false} SameFlat<U>(
    parts: seq<seq<CodeUnit>>, f: seq<CodeUnit> -> seq<U>, g: seq<CodeUnit> -> seq<U>)
    requires forall p :: f(p) == g(p)
    ensures Flat(parts, f) == Flat(parts, g)
    decreases |parts|
  {
    if parts != [] {
      SameFlat(parts[..|parts| - 1], f, g);
    }
  }

  lemma {:induction false} BytesOfList(parts: seq<seq<CodeUnit>>)
    ensures Flat(Flat(parts, PartScalars), Utf8Of) == HashedBytes(parts)
  {
    FlatOfFlat(parts, Utf8Of);
    forall p ensures Flat(PartScalars(p), Utf8Of) == PartBytes(p) {
      BytesOfPart(p);
    }
    SameFlat(parts, p => Flat(PartScalars(p), Utf8Of), PartBytes);
  }

  lemma {:induction false} NothingToRepair()
    ensures Repaired([]) == []
  {
  }

  lemma {:induction false} RepairedSnoc(parts: seq<seq<CodeUnit>>)
    requires parts != []
    ensures Repaired(parts) == Repaired(parts[..|parts| - 1]) + [Repair(parts[|parts| - 1])]
  {
    hide Repair;
  }

  lemma {:induction false} UnitsOfList(parts: seq<seq<CodeUnit>>)
    ensures Flat(Flat(parts, PartScalars), UnitsOf) == Flat(Repaired(parts), PartUnits)
    decreases |parts|
  {
    hide PartScalars, PartUnits, UnitsOf, Repair, Repaired;
    NothingToRepair();
    if parts != [] {
      var init, last := parts[..|parts| - 1], parts[|parts| - 1];
      UnitsOfList(init);
      UnitsOfPart(last);
      FlatConcat(Flat(init, PartScalars), PartScalars(last), UnitsOf);
      RepairedSnoc(parts);
      FlatSnoc(Repaired(init), Repair(last), PartUnits);
    }
  }

  lemma {:induction false} ListScalarsAreScalars(parts: seq<seq<CodeUnit>>)
    ensures AllScalars(Flat(parts, PartScalars))
    decreases |parts|
  {
    if parts != [] {
      ListScalarsAreScalars(parts[..|parts| - 1]);
      PartScalarsAreScalars(parts[|parts| - 1]);
    }
  }

  // ----- code units as characters -----

  /** A character for every code unit, surrogates included, and for each ASCII one its own. */
  function CharOf(u: CodeUnit): char {
    if High(u) || Low(u) then (u + 0xF_0000) as char else u as char
  }

  function Text(s: seq<CodeUnit>): string {
    Map(s, CharOf)
  }

  lemma {:induction false} TextDecides(a: seq<CodeUnit>, b: seq<CodeUnit>)
    requires Text(a) == Text(b)
    ensures a == b
  {
    assert |a| == |Text(a)| == |b|;
    forall i | 0 <= i < |a| ensures a[i] == b[i] {
      assert Text(a)[i] == CharOf(a[i]) && Text(b)[i] == CharOf(b[i]);
    }
  }

  lemma {:induction false} TextOfAscii(s: string)
    requires forall c :: c in s ==> c as int < 0x80
    ensures Text(Ascii(s)) == s
  {
    forall i | 0 <= i < |s| ensures Text(Ascii(s))[i] == s[i] {
      assert s[i] in s;
    }
  }

  lemma {:induction false} TextOfPart(part: seq<CodeUnit>)
    ensures Text(PartUnits(part)) == EncodePart(Text(part))
  {
    TextOfAscii(Decimal(|part|));
    TextOfAscii(":");
    TextOfAscii("\n");
    assert Text(PartUnits(part)) ==
      Text(Ascii(Decimal(|part|))) + Text(Ascii(":")) + Text(part) + Text(Ascii("\n"));
  }

  /** The code units of the whole text are the length-prefixed text of the parts. */
  lemma {:induction false} TextOfList(parts: seq<seq<CodeUnit>>)
    ensures Text(Flat(parts, PartUnits)) == EncodeParts(Map(parts, Text))
    decreases |parts|
  {
    if parts != [] {
      var init, last := parts[..|parts| - 1], parts[|parts| - 1];
      TextOfList(init);
      TextOfPart(last);
      var texts := Map(parts, Text);
      assert texts[..|texts| - 1] == Map(init, Text);
      assert Text(Flat(init, PartUnits) + PartUnits(last)) == Text(Flat(init, PartUnits)) + Text(PartUnits(last));
    }
  }

  lemma {:induction false} UnitsDecideList(a: seq<seq<CodeUnit>>, b: seq<seq<CodeUnit>>)
    requires Flat(a, PartUnits) == Flat(b, PartUnits)
    ensures a == b
  {
    TextOfList(a);
    TextOfList(b);
    EncodePartsInjective(Map(a, Text), Map(b, Text));
    assert |a| == |Map(a, Text)| == |b|;
    forall i | 0 <= i < |a| ensures a[i] == b[i] {
      assert Map(a, Text)[i] == Text(a[i]) && Map(b, Text)[i] == Text(b[i]);
      TextDecides(a[i], b[i]);
    }
  }

  lemma {:induction false} RepairChangesNoBytes(parts: seq<seq<CodeUnit>>)
    ensures HashedBytes(Repaired(parts)) == HashedBytes(parts)
    decreases |parts|
  {
    if parts != [] {
      var init, last := parts[..|parts| - 1], parts[|parts| - 1];
      RepairChangesNoBytes(init);
      RepairKeepsScalars(last);
      RepairedSnoc(parts);
      FlatSnoc(Repaired(init), Repair(last), PartBytes);
    }
  }

  /** Two lists feed the hash the same bytes iff they are the same but for unpaired surrogates. */
  lemma {:induction false} HashedBytesIff(a: seq<seq<CodeUnit>>, b: seq<seq<CodeUnit>>)
    ensures HashedBytes(a) == HashedBytes(b) <==> Repaired(a) == Repaired(b)
  {
    hide HashedBytes, Repaired, PartScalars, PartUnits, Flat;
    if HashedBytes(a) == HashedBytes(b) {
      BytesOfList(a);
      BytesOfList(b);
      ListScalarsAreScalars(a);
      ListScalarsAreScalars(b);
      Utf8Decides(Flat(a, PartScalars), Flat(b, PartScalars));
      UnitsOfList(a);
      UnitsOfList(b);
      UnitsDecideList(Repaired(a), Repaired(b));
    }
    if Repaired(a) == Repaired(b) {
      RepairChangesNoBytes(a);
      RepairChangesNoBytes(b);
    }
  }

  /** So the bytes decide every list of well-formed strings. */
  lemma {:induction false} WellFormedPartsDecided(a: seq<seq<CodeUnit>>, b: seq<seq<CodeUnit>>)
    requires (forall p :: p in a ==> IsWellFormed(p)) && (forall p :: p in b ==> IsWellFormed(p))
    requires HashedBytes(a) == HashedBytes(b)
    ensures a == b
  {
    HashedBytesIff(a, b);
    WellFormedIsRepaired(a);
    WellFormedIsRepaired(b);
  }

  lemma {:induction false} WellFormedIsRepaired(parts: seq<seq<CodeUnit>>)
    requires forall p :: p in parts ==> IsWellFormed(p)
    ensures Repaired(parts) == parts
  {
    hide Repair;
    forall i | 0 <= i < |parts| ensures Repaired(parts)[i] == parts[i] {
      assert parts[i] in parts;
    }
  }

  /** Two lone surrogates are not told apart. */
  lemma {:induction false} LoneSurrogatesMerge()
    ensures HashedBytes([[0xD800]]) == HashedBytes([[0xD801]])
  {
    var a: seq<seq<CodeUnit>>, b: seq<seq<CodeUnit>> := [[0xD800]], [[0xD801]];
    assert Repair(a[0]) == [Replacement] && Repair(b[0]) == [Replacement];
    assert Repaired(a) == [[Replacement]] == Repaired(b);
    HashedBytesIff(a, b);
  }
}
