/** What a pack costs against sending everything, and where the difference comes from. */
module TokenAccounting {
  import opened Common
  import opened LedgerTypes
  import opened ContextDiff
  import opened SessionLedger
  import opened DurableBuild
  import opened LedgerInvariants

  datatype Savings = Savings(
    naiveTokens: nat, grapeTokens: nat, omittedUnchangedTokens: nat, pinnedOverheadTokens: nat,
    invalidationOverheadTokens: nat, reductionHundredths: nat)

  // ----- estimates -----

  /** What `trim` removes. */
  predicate Blank(c: char) {
    || '\U{0009}' <= c <= '\U{000D}' || c == ' ' || c == '\U{00A0}' || c == '\U{FEFF}' || c == '\U{1680}'
    || '\U{2000}' <= c <= '\U{200A}' || c == '\U{2028}' || c == '\U{2029}' || c == '\U{202F}' || c == '\U{205F}'
    || c == '\U{3000}'
  }

  /** The white space and line terminators of ECMAScript. */
  lemma {:induction false} BlankIff(c: char)
    ensures Blank(c) <==>
            || c as int in {0x9, 0xA, 0xB, 0xC, 0xD, 0x20, 0xA0, 0x1680, 0x2028, 0x2029, 0x202F, 0x205F, 0x3000, 0xFEFF}
            || 0x2000 <= c as int <= 0x200A
  {
    assert c as int in {0x9, 0xA, 0xB, 0xC, 0xD} <==> 0x9 <= c as int <= 0xD;
  }

  function TrimStart(s: string): (r: string)
    ensures |r| <= |s|
  {
    if s != [] && Blank(s[0]) then TrimStart(s[1..]) else s
  }

  function TrimEnd(s: string): (r: string)
    ensures |r| <= |s|
  {
    if s != [] && Blank(s[|s| - 1]) then TrimEnd(s[..|s| - 1]) else s
  }

  /** A quarter of the trimmed length, rounded up. */
  function EstimateTextTokens(text: string): nat {
    (|TrimEnd(TrimStart(text))| + 3) / 4
  }

  /** `core` is what is left of `text` between the blanks at its ends. */
  predicate Trimmed(text: string, core: string) {
    && (core == "" || (!Blank(core[0]) && !Blank(core[|core| - 1])))
    && exists i :: 0 <= i <= |text| - |core| && CoreAt(text, core, i)
  }

  predicate CoreAt(text: string, core: string, i: nat) {
    && i + |core| <= |text| && text[i..i + |core|] == core
    && forall k :: 0 <= k < |text| && !(i <= k < i + |core|) ==> Blank(text[k])
  }

  lemma {:induction false} StartIsTrimmed(s: string) returns (i: nat)
    ensures i <= |s| && TrimStart(s) == s[i..] && (forall k :: 0 <= k < i ==> Blank(s[k])) && (i < |s| ==> !Blank(s[i]))
    decreases |s|
  {
    i := 0;
    if s != [] && Blank(s[0]) {
      var j := StartIsTrimmed(s[1..]);
      i := j + 1;
      assert s[1..][j..] == s[i..];
      assert forall k :: 0 < k < |s| ==> s[k] == s[1..][k - 1];
    }
  }

  lemma {:induction false} EndIsTrimmed(s: string)
    ensures var core := TrimEnd(s);
            core <= s && (forall k :: |core| <= k < |s| ==> Blank(s[k])) && (core != [] ==> !Blank(core[|core| - 1]))
    decreases |s|
  {
    if s != [] && Blank(s[|s| - 1]) {
      EndIsTrimmed(s[..|s| - 1]);
    }
  }

  lemma {:induction false} TrimIsTrimmed(text: string)
    ensures Trimmed(text, TrimEnd(TrimStart(text)))
  {
    var i := StartIsTrimmed(text);
    var rest := text[i..];
    EndIsTrimmed(rest);
    var core := TrimEnd(rest);
    assert text[i..i + |core|] == core;
    assert forall k :: i <= k < |text| ==> text[k] == rest[k - i];
    assert CoreAt(text, core, i);
    assert core != [] ==> core[0] == text[i];
  }

  /** No text with two ends that are not blank is longer than the core of a text it stands in. */
  lemma {:induction false} CoreCovers(text: string, core: string, inner: string, i: nat)
    requires Trimmed(text, core) && i + |inner| <= |text| && text[i..i + |inner|] == inner
    requires inner == "" || (!Blank(inner[0]) && !Blank(inner[|inner| - 1]))
    ensures |inner| <= |core|
  {
    if inner != [] {
      var j :| 0 <= j <= |text| - |core| && CoreAt(text, core, j);
      assert text[i] == inner[0] && text[i + |inner| - 1] == inner[|inner| - 1];
    }
  }

  lemma {:induction false} TrimmedOnce(text: string, a: string, b: string)
    requires Trimmed(text, a) && Trimmed(text, b)
    ensures |a| <= |b|
  {
    var i :| 0 <= i <= |text| - |a| && CoreAt(text, a, i);
    CoreCovers(text, b, a, i);
  }

  /** The estimate is the least number of fours that covers the text without the blanks around it. */
  lemma {:induction false} EstimateIsLeast(text: string, core: string)
    requires Trimmed(text, core)
    ensures 4 * (EstimateTextTokens(text) - 1) < |core| <= 4 * EstimateTextTokens(text)
  {
    TrimIsTrimmed(text);
    TrimmedOnce(text, core, TrimEnd(TrimStart(text)));
    TrimmedOnce(text, TrimEnd(TrimStart(text)), core);
  }

  /** A text costs at least what any stretch of it costs. */
  lemma {:induction false} PartCostsNoMore(before: string, part: string, after: string)
    ensures EstimateTextTokens(part) <= EstimateTextTokens(before + part + after)
  {
    var text, core, outer := before + part + after, TrimEnd(TrimStart(part)), TrimEnd(TrimStart(before + part + after));
    TrimIsTrimmed(part);
    TrimIsTrimmed(text);
    hide Blank, TrimStart, TrimEnd;
    var i :| 0 <= i <= |part| - |core| && CoreAt(part, core, i);
    assert text[|before| + i..|before| + i + |core|] == part[i..i + |core|];
    CoreCovers(text, outer, core, |before| + i);
  }

  function RenderNaiveSection(s: Section): string {
    s.kind + "\n" + s.title + "\n" + s.body
  }

  function OrEmpty(s: Option<string>): string {
    if s.Some? then s.value else ""
  }

  function Lines(lines: seq<string>): string {
    if lines == [] then "" else "\n" + lines[0] + Lines(lines[1..])
  }

  function RenderPackItem(item: PackItem): string {
    StateName(item.state) + "\n" + item.title + "\n" + item.body + "\n" + OrEmpty(item.restoreToken) + "\n" +
    OrEmpty(item.safeOmissionReason) + Lines(item.warnings)
  }

  function SectionTokens(s: Section): nat {
    EstimateTextTokens(RenderNaiveSection(s))
  }

  function ItemTokens(item: PackItem): nat {
    EstimateTextTokens(RenderPackItem(item))
  }

  /** An item costs at least its title, its body and its restore token, and a section its title and body. */
  lemma {:induction false} CostCoversContent(item: PackItem, s: Section)
    ensures ItemTokens(item) >= EstimateTextTokens(item.title) && ItemTokens(item) >= EstimateTextTokens(item.body)
    ensures item.restoreToken.Some? ==> ItemTokens(item) >= EstimateTextTokens(item.restoreToken.value)
    ensures SectionTokens(s) >= EstimateTextTokens(s.title) && SectionTokens(s) >= EstimateTextTokens(s.body)
  {
    hide EstimateTextTokens, StateName;
    var state, token, reason := StateName(item.state), OrEmpty(item.restoreToken), OrEmpty(item.safeOmissionReason);
    var tail := "\n" + reason + Lines(item.warnings);
    var text := RenderPackItem(item);
    assert text == (state + "\n") + item.title + ("\n" + item.body + "\n" + token + tail);
    PartCostsNoMore(state + "\n", item.title, "\n" + item.body + "\n" + token + tail);
    assert text == (state + "\n" + item.title + "\n") + item.body + ("\n" + token + tail);
    PartCostsNoMore(state + "\n" + item.title + "\n", item.body, "\n" + token + tail);
    assert text == (state + "\n" + item.title + "\n" + item.body + "\n") + token + tail;
    PartCostsNoMore(state + "\n" + item.title + "\n" + item.body + "\n", token, tail);
    var naive := RenderNaiveSection(s);
    assert naive == (s.kind + "\n") + s.title + ("\n" + s.body);
    PartCostsNoMore(s.kind + "\n", s.title, "\n" + s.body);
    assert naive == (s.kind + "\n" + s.title + "\n") + s.body + "";
    PartCostsNoMore(s.kind + "\n" + s.title + "\n", s.body, "");
  }

  // ----- totals -----

  function Total<T>(xs: seq<T>, tokens: T -> nat): nat {
    if xs == [] then 0 else Total(xs[..|xs| - 1], tokens) + tokens(xs[|xs| - 1])
  }

  function InState(state: DiffState): PackItem -> bool {
    (item: PackItem) => item.state == state
  }

  function NotInState(state: DiffState): PackItem -> bool {
    (item: PackItem) => item.state != state
  }

  function ItemSectionId(item: PackItem): string { item.sectionId }

  predicate OmittedIn(pack: seq<PackItem>, sectionId: string) {
    exists item :: item in pack && item.state == OmitUnchanged && item.sectionId == sectionId
  }

  method SumTokens<T>(xs: seq<T>, tokens: T -> nat) returns (total: nat)
    ensures total == Total(xs, tokens)
  {
    total := 0;
    for i := 0 to |xs|
      invariant total == Total(xs[..i], tokens)
    {
      assert xs[..i + 1][..i] == xs[..i];
      total := total + tokens(xs[i]);
    }
    assert xs[..|xs|] == xs;
  }

  /** The ids of a set built from a list, in the order the set lists them. */
  function DistinctIds(ids: seq<string>): seq<string> {
    if ids == [] then [] else
    var init, last := ids[..|ids| - 1], ids[|ids| - 1];
    if last in init then DistinctIds(init) else DistinctIds(init) + [last]
  }

  lemma {:induction false} DistinctIdsIff(ids: seq<string>)
    ensures Distinct(DistinctIds(ids)) && forall x :: x in DistinctIds(ids) <==> x in ids
    decreases |ids|
  {
    if ids != [] {
      SplitLast(ids);
      DistinctIdsIff(ids[..|ids| - 1]);
    }
  }

  lemma {:induction false} TotalSnoc<T>(xs: seq<T>, x: T, tokens: T -> nat)
    ensures Total(xs + [x], tokens) == Total(xs, tokens) + tokens(x)
  {
    assert (xs + [x])[..|xs|] == xs;
  }

  lemma {:induction false} TotalConcat<T>(xs: seq<T>, ys: seq<T>, tokens: T -> nat)
    ensures Total(xs + ys, tokens) == Total(xs, tokens) + Total(ys, tokens)
    decreases |ys|
  {
    if ys == [] {
      assert xs + ys == xs;
    } else {
      var init, y := ys[..|ys| - 1], ys[|ys| - 1];
      SplitLast(ys);
      ConcatAssociative(xs, init, [y]);
      TotalSnoc(xs + init, y, tokens);
      TotalConcat(xs, init, tokens);
    }
  }

  /** Whatever is kept and whatever is not add up to the whole. */
  lemma {:induction false} TotalSplits<T(!new)>(xs: seq<T>, p: T -> bool, rest: T -> bool, tokens: T -> nat)
    requires forall x :: rest(x) <==> !p(x)
    ensures Total(xs, tokens) == Total(Filter(xs, p), tokens) + Total(Filter(xs, rest), tokens)
    decreases |xs|
  {
    if xs != [] {
      var init, x := xs[..|xs| - 1], xs[|xs| - 1];
      TotalSplits(init, p, rest, tokens);
      if p(x) {
        TotalSnoc(Filter(init, p), x, tokens);
      } else {
        TotalSnoc(Filter(init, rest), x, tokens);
      }
    }
  }

  // ----- the metric -----

  method CalculateOmittedUnchangedTokens(sections: seq<Section>, pack: seq<PackItem>) returns (total: nat)
    ensures total == OmittedUnchangedTokens(sections, pack)
  {
    var sectionsById := Index(sections, SectionId);
    var omittedSectionIds := DistinctIds(Map(Filter(pack, InState(OmitUnchanged)), ItemSectionId));
    total := 0;
    for i := 0 to |omittedSectionIds|
      invariant total == Total(omittedSectionIds[..i], TokensById(sectionsById))
    {
      assert omittedSectionIds[..i + 1][..i] == omittedSectionIds[..i];
      if omittedSectionIds[i] in sectionsById {
        total := total + SectionTokens(sectionsById[omittedSectionIds[i]]);
      }
    }
    assert omittedSectionIds[..|omittedSectionIds|] == omittedSectionIds;
  }

  function TokensById(sectionsById: map<string, Section>): string -> nat {
    id => if id in sectionsById then SectionTokens(sectionsById[id]) else 0
  }

  function OmittedUnchangedTokens(sections: seq<Section>, pack: seq<PackItem>): nat {
    Total(DistinctIds(Map(Filter(pack, InState(OmitUnchanged)), ItemSectionId)), TokensById(Index(sections, SectionId)))
  }

  /** `Math.round`, half up, of an exact fraction: the reduction in hundredths of a percent. */
  function ReductionHundredths(naive: nat, grape: nat): nat {
    if naive == 0 then 0 else Max(0, (20000 * (naive - grape) + naive) / (2 * naive))
  }

  function SavingsOf(sections: seq<Section>, pack: seq<PackItem>): Savings {
    var naive, grape := Total(sections, SectionTokens), Total(pack, ItemTokens);
    Savings(naive, grape, OmittedUnchangedTokens(sections, pack), Total(Filter(pack, InState(Pinned)), ItemTokens),
            Total(Filter(pack, InState(InvalidatePrevious)), ItemTokens), ReductionHundredths(naive, grape))
  }

  method CalculateInMemoryTokenSavings(sections: seq<Section>, pack: seq<PackItem>) returns (savings: Savings)
    ensures savings == SavingsOf(sections, pack)
  {
    var naive := SumTokens(sections, SectionTokens);
    var grape := SumTokens(pack, ItemTokens);
    var omitted := CalculateOmittedUnchangedTokens(sections, pack);
    var pinned := SumTokens(Filter(pack, InState(Pinned)), ItemTokens);
    var invalidation := SumTokens(Filter(pack, InState(InvalidatePrevious)), ItemTokens);
    savings := Savings(naive, grape, omitted, pinned, invalidation, ReductionHundredths(naive, grape));
  }

  // ----- what the metric promises -----

  lemma {:induction false} Quotient(x: int, n: nat) returns (q: int, product: int)
    requires n > 0
    ensures q == x / (2 * n) && product == q * n && 2 * product <= x < 2 * product + 2 * n
  {
    q, product := x / (2 * n), x / (2 * n) * n;
    assert x == (2 * n) * q + x % (2 * n);
    assert (2 * n) * q == 2 * product;
  }

  lemma {:induction false} ProductsAreOrdered(p: int, q: int, n: nat)
    requires p <= q
    ensures p * n <= q * n
  {
  }

  /** The percentage is within bounds, and as near to the true one as two decimals allow. */
  lemma {:induction false} ReductionIsAPercentage(naive: nat, grape: nat)
    ensures var r := ReductionHundredths(naive, grape);
            && 0 <= r <= 10000
            && (grape >= naive ==> r == 0)
            && (0 < naive && grape <= naive ==>
                  2 * (r * naive - 10000 * (naive - grape)) <= naive &&
                    2 * (10000 * (naive - grape) - r * naive) < naive)
  {
    if naive > 0 {
      var q, product := Quotient(20000 * (naive - grape) + naive, naive);
      if q > 10000 {
        ProductsAreOrdered(10001, q, naive);
      }
      if q > 0 {
        ProductsAreOrdered(1, q, naive);
      }
      if q < 0 {
        ProductsAreOrdered(q, -1, naive);
      }
    }
  }

  /** Sending less never lowers the reported reduction. */
  lemma {:induction false} FewerTokensMoreReduction(naive: nat, grape: nat, less: nat)
    requires less <= grape
    ensures ReductionHundredths(naive, less) >= ReductionHundredths(naive, grape)
  {
    if naive > 0 {
      var p, productP := Quotient(20000 * (naive - grape) + naive, naive);
      var q, productQ := Quotient(20000 * (naive - less) + naive, naive);
      assert (q + 1) * naive == productQ + naive;
      if q < p {
        ProductsAreOrdered(q + 1, p, naive);
      }
    }
  }

  lemma {:induction false} FilterOfFilter<T>(xs: seq<T>, p: T -> bool, q: T -> bool)
    requires forall x :: p(x) ==> q(x)
    ensures Filter(Filter(xs, q), p) == Filter(xs, p)
    decreases |xs|
  {
    if xs != [] {
      FilterOfFilter(xs[..|xs| - 1], p, q);
      if q(xs[|xs| - 1]) {
        FilterSnoc(Filter(xs[..|xs| - 1], q), xs[|xs| - 1], p);
      }
    }
  }

  predicate PlainlySent(item: PackItem) {
    item.state != Pinned && item.state != InvalidatePrevious
  }

  /** What the context pack costs is the pinned overhead, the invalidation overhead and the other items. */
  lemma {:induction false} OverheadIsPartOfTheCost(sections: seq<Section>, pack: seq<PackItem>)
    ensures var s := SavingsOf(sections, pack);
            s.grapeTokens ==
            s.pinnedOverheadTokens + s.invalidationOverheadTokens + Total(Filter(pack, PlainlySent), ItemTokens)
  {
    hide Total, ItemTokens;
    TotalSplits(pack, InState(Pinned), NotInState(Pinned), ItemTokens);
    var others := Filter(pack, NotInState(Pinned));
    TotalSplits(others, InState(InvalidatePrevious), NotInState(InvalidatePrevious), ItemTokens);
    FilterOfFilter(pack, InState(InvalidatePrevious), NotInState(Pinned));
    FilterTwice(pack, NotInState(Pinned), NotInState(InvalidatePrevious), PlainlySent);
  }

  lemma {:induction false} OmittedInIff(pack: seq<PackItem>, id: string)
    ensures id in DistinctIds(Map(Filter(pack, InState(OmitUnchanged)), ItemSectionId)) <==> OmittedIn(pack, id)
  {
    var items := Filter(pack, InState(OmitUnchanged));
    FilterContains(pack, InState(OmitUnchanged));
    DistinctIdsIff(Map(items, ItemSectionId));
    if OmittedIn(pack, id) {
      var item :| item in pack && item.state == OmitUnchanged && item.sectionId == id;
      var i :| 0 <= i < |items| && items[i] == item;
      assert Map(items, ItemSectionId)[i] == id;
    }
    if id in Map(items, ItemSectionId) {
      var i :| 0 <= i < |items| && Map(items, ItemSectionId)[i] == id;
      assert items[i] in items;
    }
  }

  function HasIdIn(ids: seq<string>): Section -> bool {
    (s: Section) => s.id in ids
  }

  function OmittedBy(pack: seq<PackItem>): Section -> bool {
    (s: Section) => OmittedIn(pack, s.id)
  }

  function SentBy(pack: seq<PackItem>): Section -> bool {
    (s: Section) => !OmittedIn(pack, s.id)
  }

  /** Adding tokens up by id, over any duplicate-free list of ids, is adding up the sections that have them. */
  lemma {:induction false} TotalById(sections: seq<Section>, ids: seq<string>)
    requires UniqueSections(sections) && Distinct(ids)
    ensures Total(ids, TokensById(Index(sections, SectionId))) == Total(Filter(sections, HasIdIn(ids)), SectionTokens)
    decreases |ids|
  {
    if ids == [] {
      FilterContains(sections, HasIdIn(ids));
      var found := Filter(sections, HasIdIn(ids));
      EmptyIff(found);
    } else {
      var init, id := ids[..|ids| - 1], ids[|ids| - 1];
      SplitLast(ids);
      TotalById(sections, init);
      assert id !in init by {
        assert forall i :: 0 <= i < |init| ==> init[i] == ids[i] != id;
      }
      OneMoreId(sections, init, id, ids);
    }
  }

  lemma {:induction false} OneMoreSection(before: seq<Section>, s: Section, ids: seq<string>)
    ensures Total(Filter(before + [s], HasIdIn(ids)), SectionTokens) ==
            Total(Filter(before, HasIdIn(ids)), SectionTokens) + if s.id in ids then SectionTokens(s) else 0
  {
    FilterSnoc(before, s, HasIdIn(ids));
    TotalSnoc(Filter(before, HasIdIn(ids)), s, SectionTokens);
  }

  lemma {:induction false} LookUpOneMore(before: seq<Section>, s: Section, id: string)
    requires forall t :: t in before ==> t.id != s.id
    ensures TokensById(Index(before + [s], SectionId))(id) ==
            TokensById(Index(before, SectionId))(id) + if s.id == id then SectionTokens(s) else 0
  {
    IndexFacts(before, SectionId);
    IndexSnoc(before, s, SectionId);
  }

  lemma {:induction false} UniqueInit(sections: seq<Section>)
    requires UniqueSections(sections) && sections != []
    ensures var before, s := sections[..|sections| - 1], sections[|sections| - 1];
            sections == before + [s] && UniqueSections(before) && forall t :: t in before ==> t.id != s.id
  {
    var before, s := sections[..|sections| - 1], sections[|sections| - 1];
    SplitLast(sections);
    forall t | t in before ensures t.id != s.id {
      var i :| 0 <= i < |before| && before[i] == t;
      assert sections[i] == t;
    }
  }

  lemma {:induction false} OneMoreId(sections: seq<Section>, init: seq<string>, id: string, ids: seq<string>)
    requires UniqueSections(sections) && id !in init && ids == init + [id]
    ensures Total(Filter(sections, HasIdIn(ids)), SectionTokens) ==
            Total(Filter(sections, HasIdIn(init)), SectionTokens) + TokensById(Index(sections, SectionId))(id)
    decreases |sections|
  {
    if sections != [] {
      hide Total, Filter, Index, SectionTokens, TokensById, HasIdIn, UniqueSections;
      var before, s := sections[..|sections| - 1], sections[|sections| - 1];
      UniqueInit(sections);
      OneMoreId(before, init, id, ids);
      OneMoreSection(before, s, init);
      OneMoreSection(before, s, ids);
      LookUpOneMore(before, s, id);
    }
  }

  /**
    The omitted tokens are those of exactly the sections the context pack omits; the rest of the naive cost is what it
    sends.
  */
  lemma {:induction false} NaiveIsOmittedPlusSent(sections: seq<Section>, pack: seq<PackItem>)
    requires UniqueSections(sections)
    ensures OmittedUnchangedTokens(sections, pack) == Total(Filter(sections, OmittedBy(pack)), SectionTokens)
    ensures Total(sections, SectionTokens) ==
            OmittedUnchangedTokens(sections, pack) + Total(Filter(sections, SentBy(pack)), SectionTokens)
  {
    hide Total, SectionTokens;
    var ids := DistinctIds(Map(Filter(pack, InState(OmitUnchanged)), ItemSectionId));
    DistinctIdsIff(Map(Filter(pack, InState(OmitUnchanged)), ItemSectionId));
    TotalById(sections, ids);
    forall id ensures id in ids <==> OmittedIn(pack, id) {
      OmittedInIff(pack, id);
    }
    FilterAgrees(sections, HasIdIn(ids), OmittedBy(pack));
    TotalSplits(sections, OmittedBy(pack), SentBy(pack), SectionTokens);
  }

  // ----- on the context pack of a build -----

  lemma {:induction false} DiffOmits(
    sessionId: string, artifactId: string, sections: seq<Section>, previous: map<string, PriorItem>, id: string)
    ensures OmittedIn(PackFor(sessionId, artifactId, sections, previous), id) <==>
            exists s :: s in sections && s.id == id && IsOmitted(s, previous)
    decreases |sections|
  {
    hide IsOmitted, CreatePackItem, SendItem;
    if sections != [] {
      var init, last := sections[..|sections| - 1], sections[|sections| - 1];
      SplitLast(sections);
      DiffOmits(sessionId, artifactId, init, previous, id);
      SectionOmits(sessionId, artifactId, last, previous, id);
      var before, added := PackFor(sessionId, artifactId, init, previous),
        SectionItems(sessionId, artifactId, last, previous);
      assert OmittedIn(before + added, id) <==> OmittedIn(before, id) || OmittedIn(added, id);
    }
  }

  lemma {:induction false} SectionOmits(
    sessionId: string, artifactId: string, section: Section, previous: map<string, PriorItem>, id: string)
    ensures OmittedIn(SectionItems(sessionId, artifactId, section, previous), id) <==>
            section.id == id && IsOmitted(section, previous)
  {
    hide ItemId, RestoreToken;
    var items := SectionItems(sessionId, artifactId, section, previous);
    assert items[0].sectionId == section.id;
    assert IsOmitted(section, previous) ==> items[0] in items && items[0].state == OmitUnchanged;
  }

  /**
    A build's pack carries one item per stale prior item and per section, and one more per omitted section; and what it
    saves is the naive cost of the sections it omits, what it sends that of all the others.
  */
  lemma {:induction false} BuildConservesTokens(l: Ledger, req: Request)
    requires UniqueSections(req.artifact.sections)
    ensures |Pack(l, req)| == |StalePrior(l, req)| + |req.artifact.sections| + |NewOmitted(l, req)|
    ensures var savings := SavingsOf(req.artifact.sections, Pack(l, req));
            && savings.naiveTokens == savings.omittedUnchangedTokens +
                                      Total(SentSections(req.artifact.sections, Previous(l, req)), SectionTokens)
            && savings.omittedUnchangedTokens ==
               Total(OmittedSections(req.artifact.sections, Previous(l, req)), SectionTokens)
            && savings.invalidationOverheadTokens == Total(Invalidations(req, StalePrior(l, req)), ItemTokens)
            && savings.grapeTokens == savings.pinnedOverheadTokens + savings.invalidationOverheadTokens +
                                      Total(Filter(Pack(l, req), PlainlySent), ItemTokens)
  {
    hide StalePrior, Previous, Total, OmittedUnchangedTokens, PackFor, IsOmitted;
    var sections, previous, pack := req.artifact.sections, Previous(l, req), Pack(l, req);
    var artifactId := req.artifact.artifactId;
    PackLength(req.sessionId, artifactId, sections, previous);
    NaiveIsOmittedPlusSent(sections, pack);
    forall s | s in sections ensures OmittedBy(pack)(s) <==> IsOmitted(s, previous) {
      InvalidationsOmitNothing(req, StalePrior(l, req), PackFor(req.sessionId, artifactId, sections, previous), s.id);
      DiffOmits(req.sessionId, artifactId, sections, previous, s.id);
      OnlyOneWithId(sections, s);
    }
    FilterAgrees(sections, OmittedBy(pack), s => IsOmitted(s, previous));
    FilterAgrees(sections, SentBy(pack), s => !IsOmitted(s, previous));
    OverheadIsPartOfTheCost(sections, pack);
    InvalidationsOfPack(l, req);
  }

  lemma {:induction false} InvalidationsOfPack(l: Ledger, req: Request)
    ensures Filter(Pack(l, req), InState(InvalidatePrevious)) == Invalidations(req, StalePrior(l, req))
  {
    hide StalePrior, Previous, PackFor, InvalidationBody;
    var invalidations, p := Invalidations(req, StalePrior(l, req)), InState(InvalidatePrevious);
    var diff := PackFor(req.sessionId, req.artifact.artifactId, req.artifact.sections, Previous(l, req));
    forall item | item in diff ensures !p(item) {
      DiffItemIsNoInvalidation(l, req, item);
    }
    FilterConcat(invalidations, diff, p);
    FilterKeepsAll(invalidations, p);
    FilterKeepsNone(diff, p);
    assert invalidations + [] == invalidations;
  }

  lemma {:induction false} OnlyOneWithId(sections: seq<Section>, s: Section)
    requires UniqueSections(sections) && s in sections
    ensures forall t :: t in sections && t.id == s.id ==> t == s
  {
    var i :| 0 <= i < |sections| && sections[i] == s;
  }

  lemma {:induction false} InvalidationsOmitNothing(req: Request, stale: seq<SentRow>, diff: seq<PackItem>, id: string)
    ensures OmittedIn(Invalidations(req, stale) + diff, id) <==> OmittedIn(diff, id)
  {
    var invalidations := Invalidations(req, stale);
    forall item | item in invalidations ensures item.state == InvalidatePrevious {
      var i :| 0 <= i < |invalidations| && invalidations[i] == item;
      assert item == CreateInvalidationPackItem(req, stale[i]);
    }
  }

  lemma {:induction false} PackLength(
    sessionId: string, artifactId: string, sections: seq<Section>, previous: map<string, PriorItem>)
    ensures |PackFor(sessionId, artifactId, sections, previous)| ==
              |sections| + |OmittedFor(sessionId, artifactId, sections, previous)|
    decreases |sections|
  {
    hide CreatePackItem, SendItem;
    if sections != [] {
      PackLength(sessionId, artifactId, sections[..|sections| - 1], previous);
    }
  }
}
