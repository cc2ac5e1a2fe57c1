/** The ingredient document both fetch endpoints build before indexing it:
    the name, a generated stability sentence, and the URLs of the fetched
    reference entries. The batch endpoint writes a fixed sentence naming
    the ingredient (Generic); the single-item endpoint also states how
    many articles were found (Counted). */
module Records {
  import opened Text
  import opened PubMed

  datatype SummaryMode = Generic | Counted

  /** The document shape written by every write path: `name`,
      `stability_info` and `references`. */
  datatype Document = Document(name: string, stabilityInfo: string, references: seq<string>)

  const GenericLead: string := "Stability information for "
  const GenericTail: string := " fetched from PubMed."

  const CountedLead: string := "The stability of "
  const CountedMid: string := " is summarized based on "
  const CountedTail: string :=
    " PubMed articles. This includes factors like storage conditions, "
    + "temperature effects, and pH stability. Refer to the links below for more details."

  function Lead(mode: SummaryMode): string
  {
    match mode
    case Generic => GenericLead
    case Counted => CountedLead
  }

  /** The `stability_info` sentence for `name` when `count` articles were
      found. It is never empty, it names the ingredient right after the
      mode's opening words, and in Counted mode it carries the count in
      decimal. */
  function Summary(mode: SummaryMode, name: string, count: nat): (s: string)
    ensures |s| > |name|
    ensures Lead(mode) <= s && name <= s[|Lead(mode)|..]
    ensures Occurs(name, s)
    ensures mode == Counted ==> Occurs(Decimal(count), s)
  {
    match mode
    case Generic =>
      InfixAt(GenericLead, name, GenericTail);
      GenericLead + name + GenericTail
    case Counted =>
      CountedSentence(CountedLead, name, CountedMid, Decimal(count), CountedTail);
      CountedLead + name + CountedMid + Decimal(count) + CountedTail
  }

  /** Both the name and the count occur in a sentence assembled as
      lead, name, mid, count, tail. */
  lemma CountedSentence(lead: string, name: string, mid: string, count: string, tail: string)
    ensures lead <= lead + name + mid + count + tail
    ensures name <= (lead + name + mid + count + tail)[|lead|..]
    ensures Occurs(name, lead + name + mid + count + tail)
    ensures Occurs(count, lead + name + mid + count + tail)
  {
    var s := lead + name + mid + count + tail;
    assert s == lead + name + (mid + count + tail);
    InfixAt(lead, name, mid + count + tail);
    InfixAt(lead + name + mid, count, tail);
  }

  /** The Generic sentence depends on the name only, and names it
      unambiguously: two sentences agree exactly when the names do. */
  lemma GenericSummaryNames(a: string, b: string, c1: nat, c2: nat)
    ensures Summary(Generic, a, c1) == Summary(Generic, b, c2) <==> a == b
  {
    var s1, s2 := Summary(Generic, a, c1), Summary(Generic, b, c2);
    if s1 == s2 {
      assert |a| == |b|;
      assert a == s1[|GenericLead|..|GenericLead| + |a|];
      assert b == s2[|GenericLead|..|GenericLead| + |b|];
    }
  }

  /** The Counted sentence can be read back: two sentences agree exactly
      when both the names and the counts do. The count is the run of digits
      just before the fixed tail, which the name cannot reach into because
      the words before the count end in a space. */
  lemma CountedSummaryDecodes(a: string, b: string, c1: nat, c2: nat)
    ensures Summary(Counted, a, c1) == Summary(Counted, b, c2) <==> a == b && c1 == c2
  {
    if Summary(Counted, a, c1) == Summary(Counted, b, c2) {
      assert CountedMid[|CountedMid| - 1] == ' ';
      SentenceDecodes(CountedLead, a, b, CountedMid, Decimal(c1), Decimal(c2), CountedTail);
      DecimalInjective(c1, c2);
    }
  }

  /** A sentence assembled as lead, name, mid, digits, tail determines its
      name and its digits, provided the mid part ends in a non-digit. */
  lemma SentenceDecodes(lead: string, a: string, b: string, mid: string, d1: string, d2: string, tail: string)
    requires lead + a + mid + d1 + tail == lead + b + mid + d2 + tail
    requires |mid| > 0 && !IsDigit(mid[|mid| - 1])
    requires AllDigits(d1) && AllDigits(d2)
    ensures a == b && d1 == d2
  {
    var s1, s2 := lead + a + mid + d1 + tail, lead + b + mid + d2 + tail;
    var x1, x2 := a + mid + d1, b + mid + d2;
    assert s1 == lead + x1 + tail;
    assert s2 == lead + x2 + tail;
    assert |x1| == |x2|;
    assert x1 == s1[|lead|..|lead| + |x1|];
    assert x2 == s2[|lead|..|lead| + |x2|];
    TrailingDigitsAgree(a, b, mid, d1, d2);
  }

  /** In `a + mid + d1 == b + mid + d2` with digit strings `d1`, `d2` and a
      separator ending in a non-digit, the digit strings and the heads agree. */
  lemma TrailingDigitsAgree(a: string, b: string, mid: string, d1: string, d2: string)
    requires a + mid + d1 == b + mid + d2
    requires |mid| > 0 && !IsDigit(mid[|mid| - 1])
    requires AllDigits(d1) && AllDigits(d2)
    ensures d1 == d2 && a == b
  {
    var x := a + mid + d1;
    var y := b + mid + d2;
    DigitRun(a, mid, d1);
    DigitRun(b, mid, d2);
    assert d1 == x[|x| - |d1|..];
    assert d2 == y[|y| - |d2|..];
    assert a == x[..|a|];
    assert b == y[..|b|];
  }

  /** The length of the longest run of digits that ends `s`. */
  function TrailingDigits(s: string): (n: nat)
    ensures n <= |s|
    decreases |s|
  {
    if s != [] && IsDigit(s[|s| - 1]) then 1 + TrailingDigits(s[..|s| - 1]) else 0
  }

  /** When the separator before a digit string ends in a non-digit, the
      digit string is exactly the trailing run of digits. */
  lemma {:induction false} DigitRun(a: string, mid: string, d: string)
    requires |mid| > 0 && !IsDigit(mid[|mid| - 1])
    requires AllDigits(d)
    ensures TrailingDigits(a + mid + d) == |d|
    decreases |d|
  {
    var x := a + mid + d;
    if d == [] {
      assert x[|x| - 1] == mid[|mid| - 1];
    } else {
      var d' := d[..|d| - 1];
      assert x[..|x| - 1] == a + mid + d';
      DigitRun(a, mid, d');
    }
  }

  /** The `references` list: the `url` of every fetched entry, in order. */
  function References(entries: seq<ReferenceEntry>): (urls: seq<string>)
    ensures |urls| == |entries|
    ensures forall k :: 0 <= k < |entries| ==> urls[k] == entries[k].url
    decreases |entries|
  {
    if entries == [] then []
    else References(entries[..|entries| - 1]) + [entries[|entries| - 1].url]
  }

  /** The document for `name` built from its fetched entries. */
  function BuildDocument(name: string, entries: seq<ReferenceEntry>, mode: SummaryMode): (d: Document)
    ensures d.name == name
    ensures |d.references| == |entries|
    ensures forall k :: 0 <= k < |entries| ==> d.references[k] == entries[k].url
    ensures d.stabilityInfo == Summary(mode, name, |entries|)
  {
    Document(name, Summary(mode, name, |entries|), References(entries))
  }

  /** Only the URLs of the entries reach the document: titles are dropped,
      so entries that differ only in their titles give the same document. */
  lemma {:induction false} TitlesDropped(name: string, e1: seq<ReferenceEntry>, e2: seq<ReferenceEntry>, mode: SummaryMode)
    requires |e1| == |e2|
    requires forall k :: 0 <= k < |e1| ==> e1[k].url == e2[k].url
    ensures BuildDocument(name, e1, mode) == BuildDocument(name, e2, mode)
  {
    var r1, r2 := References(e1), References(e2);
    assert |r1| == |r2|;
    assert forall k :: 0 <= k < |r1| ==> r1[k] == r2[k];
  }
}
