/** The length-prefixed text behind every stable hash. */
module StableParts {
  import opened Common

  const DIGITS := "0123456789"

  function Decimal(n: nat): (s: string)
    ensures s != [] && forall c :: c in s ==> '0' <= c <= '9'
  {
    if n < 10 then [DIGITS[n]] else Decimal(n / 10) + [DIGITS[n % 10]]
  }

  function DigitValue(c: char): nat {
    if '0' <= c <= '9' then (c as int) - ('0' as int) else 0
  }

  function ParseDecimal(s: string): nat {
    if s == [] then 0 else 10 * ParseDecimal(s[..|s| - 1]) + DigitValue(s[|s| - 1])
  }

  lemma {:induction false} DecimalParses(n: nat)
    ensures ParseDecimal(Decimal(n)) == n
    decreases n
  {
    if n >= 10 {
      DecimalParses(n / 10);
      assert Decimal(n)[..|Decimal(n)| - 1] == Decimal(n / 10);
    }
  }

  lemma {:induction false} DecimalInjective(a: nat, b: nat)
    requires Decimal(a) == Decimal(b)
    ensures a == b
  {
    DecimalParses(a);
    DecimalParses(b);
  }

  /** What is fed to the hash for one part: its length, a colon, the part, a newline. */
  function EncodePart(part: string): string {
    Decimal(|part|) + ":" + part + "\n"
  }

  function EncodeParts(parts: seq<string>): string {
    if parts == [] then "" else EncodeParts(parts[..|parts| - 1]) + EncodePart(parts[|parts| - 1])
  }

  /** The text that reaches the hash when the parts are fed to it one after another. */
  method HashStableParts(parts: seq<string>) returns (text: string)
    ensures text == EncodeParts(parts)
  {
    text := "";
    for i := 0 to |parts|
      invariant text == EncodeParts(parts[..i])
    {
      assert parts[..i + 1][..i] == parts[..i];
      var head := Decimal(|parts[i]|);
      text := text + (head + ":" + parts[i] + "\n");
    }
    assert parts[..|parts|] == parts;
  }

  function IndexOf(s: string, c: char): (i: nat)
    ensures i <= |s| && c !in s[..i] && (i < |s| ==> s[i] == c)
  {
    if s == [] || s[0] == c then 0 else
    var i := 1 + IndexOf(s[1..], c);
    assert s[..i] == [s[0]] + s[1..][..i - 1];
    i
  }

  /** Reads parts back from the text, or fails. */
  function Decode(text: string): Option<seq<string>>
    decreases |text|
  {
    if text == [] then Some([]) else
    var i := IndexOf(text, ':');
    if i == |text| || i == 0 || exists k :: 0 <= k < i && !('0' <= text[k] <= '9') then None else
    assert forall c :: c in text[..i] ==> '0' <= c <= '9';
    var n := ParseDecimal(text[..i]);
    if i + 1 + n >= |text| || text[i + 1 + n] != '\n' then None else
    var rest := Decode(text[i + n + 2..]);
    if rest.None? then None else Some([text[i + 1..i + 1 + n]] + rest.value)
  }

  lemma {:induction false} IndexOfIs(head: string, c: char, rest: string)
    requires c !in head
    ensures IndexOf(head + [c] + rest, c) == |head|
    decreases |head|
  {
    var s := head + [c] + rest;
    if head != [] {
      assert head[0] in head && s[1..] == head[1..] + [c] + rest;
      IndexOfIs(head[1..], c, rest);
    }
  }

  lemma {:induction false} PartLayout(head: string, part: string, rest: string, text: string)
    requires text == head + ":" + part + "\n" + rest
    ensures |text| == |head| + |part| + 2 + |rest|
    ensures text[..|head|] == head && text[|head|] == ':'
    ensures text[|head| + 1..|head| + 1 + |part|] == part && text[|head| + 1 + |part|] == '\n'
    ensures text[|head| + |part| + 2..] == rest
  {
  }

  lemma {:induction false} FrontColon(head: string, part: string, rest: string, text: string)
    requires text == head + ":" + part + "\n" + rest && forall c :: c in head ==> '0' <= c <= '9'
    ensures IndexOf(text, ':') == |head|
    ensures forall k :: 0 <= k < |head| ==> '0' <= text[k] <= '9'
  {
    assert text == head + [':'] + (part + "\n" + rest);
    IndexOfIs(head, ':', part + "\n" + rest);
    forall k | 0 <= k < |head| ensures '0' <= text[k] <= '9' {
      assert text[k] == head[k] && head[k] in head;
    }
  }

  lemma {:induction false} DecodeStep(text: string, i: nat, n: nat)
    requires 0 < i == IndexOf(text, ':') && i + 1 + n < |text| && text[i + 1 + n] == '\n'
    requires (forall k :: 0 <= k < i ==> '0' <= text[k] <= '9') && ParseDecimal(text[..i]) == n
    ensures Decode(text) ==
            match Decode(text[i + n + 2..])
            case Some(parts) => Some([text[i + 1..i + 1 + n]] + parts)
            case None => None
  {
  }

  lemma {:induction false} DecodeFront(head: string, part: string, rest: string, text: string)
    requires text == head + ":" + part + "\n" + rest && head != []
    requires (forall c :: c in head ==> '0' <= c <= '9') && ParseDecimal(head) == |part|
    ensures Decode(text) == match Decode(rest) case Some(parts) => Some([part] + parts) case None => None
  {
    hide Decode, IndexOf, ParseDecimal;
    PartLayout(head, part, rest, text);
    FrontColon(head, part, rest, text);
    DecodeStep(text, |head|, |part|);
  }

  /** The decoder reads one encoded part off the front of any text. */
  lemma {:induction false} DecodeOne(part: string, rest: string)
    ensures Decode(EncodePart(part) + rest) ==
            match Decode(rest) case Some(parts) => Some([part] + parts) case None => None
  {
    DecimalParses(|part|);
    DecodeFront(Decimal(|part|), part, rest, EncodePart(part) + rest);
  }

  lemma {:induction false} EncodeCons(part: string, parts: seq<string>)
    ensures EncodeParts([part] + parts) == EncodePart(part) + EncodeParts(parts)
    decreases |parts|
  {
    if parts == [] {
      assert [part] + parts == [part] && [part][..0] == [];
    } else {
      var init, last := parts[..|parts| - 1], parts[|parts| - 1];
      EncodeCons(part, init);
      assert ([part] + parts)[..|parts|] == [part] + init;
      ConcatAssociative(EncodePart(part), EncodeParts(init), EncodePart(last));
    }
  }

  /** Unique decodability: the decoder recovers every list of strings, whatever they contain. */
  lemma {:induction false} DecodeEncode(parts: seq<string>)
    ensures Decode(EncodeParts(parts)) == Some(parts)
    decreases |parts|
  {
    if parts != [] {
      var rest := parts[1..];
      assert parts == [parts[0]] + rest;
      EncodeCons(parts[0], rest);
      DecodeEncode(rest);
      DecodeOne(parts[0], EncodeParts(rest));
    }
  }

  lemma {:induction false} EncodePartsInjective(a: seq<string>, b: seq<string>)
    requires EncodeParts(a) == EncodeParts(b)
    ensures a == b
  {
    DecodeEncode(a);
    DecodeEncode(b);
  }
}
