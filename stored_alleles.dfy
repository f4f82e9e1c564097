/** How snpUpdate reads a marker's allele string under Python 3 when
    `manifest.snps` may hold a `str` or `bytes` (what snpOverride stores: the
    encoded stripped replacement). Indexing a `str` gives one-letter strings;
    indexing `bytes` gives ints, which equal no letter and are no key of COMPLEMENT_MAP. The rest of the model keeps
    every allele string as text, which is the reading the base-call code
    relies on when it concatenates two reference letters and encodes them. */
module StoredAlleles {
  import opened Builtins
  import opened Alleles
  import opened Manifests

  /** A value of `manifest.snps`: a `str`, or the `bytes` of an ASCII text. */
  datatype Stored = Text(text: string) | Bytes(text: string)

  /** An element of `manifestSnps`: a one-letter `str`, or the int code of a
      byte. */
  datatype Item = Letter(c: char) | Code(n: int)

  /** `v[i]` under Python 3. */
  function ItemAt(v: Stored, i: nat): (x: Item)
    requires i < |v.text|
    ensures x.Letter? <==> v.Text?
    ensures x.Letter? ==> x.c == v.text[i]
  {
    if v.Text? then Letter(v.text[i]) else Code(v.text[i] as int)
  }

  /** `COMPLEMENT_MAP[x]`: only one-letter strings are keys. */
  function ComplementItem(x: Item): Result<Item> {
    match x
    case Code(_) => Err(KeyError)
    case Letter(c) =>
      match Complement(c)
      case Err(e) => Err(e)
      case Ok(d) => Ok(Letter(d))
  }

  /** A pair of reference letters as items. */
  function Letters(r: Result<(char, char)>): Result<(Item, Item)> {
    match r
    case Err(e) => Err(e)
    case Ok((a, b)) => Ok((Letter(a), Letter(b)))
  }

  /** `manifestSnps` of snpUpdate on a stored value: the items at index 1 and
      index -2, complemented on the Minus strand. On text this is exactly
      ReferenceAlleles; on bytes the Minus strand always raises KeyError and
      the Plus strand gives two ints. */
  function ReferenceItems(v: Stored, strand: RefStrand): (r: Result<(Item, Item)>)
    ensures v.Text? ==> r == Letters(ReferenceAlleles(v.text, strand))
    ensures v.Bytes? && |v.text| >= 2 && strand == Minus ==> r == Err(KeyError)
    ensures v.Bytes? && |v.text| >= 2 && strand == Plus ==> r.Ok? && r.value.0.Code? && r.value.1.Code?
  {
    if |v.text| < 2 then Err(IndexError)
    else
      var a, b := ItemAt(v, 1), ItemAt(v, |v.text| - 2);
      if strand == Minus then
        match ComplementItem(a)
        case Err(e) => Err(e)
        case Ok(ca) =>
          match ComplementItem(b)
          case Err(e) => Err(e)
          case Ok(cb) => Ok((ca, cb))
      else Ok((a, b))
  }

  /** The genotype code of snpUpdate for a homozygous request `rr` against
      stored reference items: 1 when `r`, or else its complement, equals the
      first item, otherwise 3; KeyError when `r` is neither item and has no
      complement. A letter never equals an int. */
  function HomozygousCode(r: char, refs: (Item, Item)): (code: Result<int>)
    ensures code.Ok? ==> code.value in {1, 3}
    ensures code.Err? <==> Letter(r) != refs.0 && Letter(r) != refs.1 && Complement(r).Err?
  {
    if Letter(r) == refs.0 || Letter(r) == refs.1 then Ok(if Letter(r) == refs.0 then 1 else 3)
    else
      match Complement(r)
      case Err(e) => Err(e)
      case Ok(c) => Ok(if Letter(c) == refs.0 then 1 else 3)
  }

  /** On text the stored reading is the model's: the homozygous code is the
      one Classify decides. */
  lemma HomozygousCodeOnText(r: char, refs: (char, char))
    requires r != '-'
    ensures HomozygousCode(r, (Letter(refs.0), Letter(refs.1))) ==
      match Classify(r, r, refs) case Err(e) => Err(e) case Ok(d) => Ok(d.code)
  {
  }

  /** What snpOverride stores for an override line, as written: the stripped
      replacement, encoded to bytes. */
  function OverrideStored(line: string): (v: Stored)
    ensures v.Bytes? && v.text == Replacement(line)
  {
    Bytes(Replacement(line))
  }

  /** As written, an overridden marker can no longer be edited as intended:
      on the Minus strand every edit raises KeyError while reading the
      reference alleles, before the request is looked at; on the Plus strand
      every homozygous letter with a complement gets code 3, never 1. */
  lemma OverrideStoredUnreadable(line: string, r: char)
    requires |Replacement(line)| >= 2
    ensures ReferenceItems(OverrideStored(line), Minus) == Err(KeyError)
    ensures var refs := ReferenceItems(OverrideStored(line), Plus);
      refs.Ok? && (Complement(r).Ok? ==> HomozygousCode(r, refs.value) == Ok(3))
  {
  }

  /** A concrete case that shows it: an override line whose replacement is
      `[A/G]` (ExampleReplacement gives one) stores the bytes of `[A/G]`; as
      written, the request `AA` on the Plus strand then gets code 3, and on
      the Minus strand the edit raises KeyError. */
  lemma OverrideStoredExample()
    ensures ReferenceItems(Bytes("[A/G]"), Plus) == Ok((Code('A' as int), Code('G' as int)))
    ensures HomozygousCode('A', ReferenceItems(Bytes("[A/G]"), Plus).value) == Ok(3)
    ensures ReferenceItems(Bytes("[A/G]"), Minus) == Err(KeyError)
  {
    ComplementSwapsBases();
  }

  /** The same replacement stored as text, as the model's override stores
      it: `AA` on the Plus strand gets code 1, and the Minus strand reads the
      complements T and C. */
  lemma OverrideTextExample()
    ensures ReferenceAlleles("[A/G]", Plus) == Ok(('A', 'G'))
    ensures Classify('A', 'A', ('A', 'G')) == Ok(Assign(1, 'A'))
    ensures ReferenceAlleles("[A/G]", Minus) == Ok(('T', 'C'))
  {
    ComplementSwapsBases();
  }

  /** An override line that sets marker rs1 to `[A/G]`. */
  const ExampleLine: string := "rs1\t[A/G]\n"

  /** The replacement of the example line. */
  lemma ExampleReplacement()
    ensures Replacement(ExampleLine) == "[A/G]"
  {
    ExampleSplit();
    ExampleStrip();
  }

  lemma ExampleSplit()
    ensures SplitOn("rs1\t[A/G]\n", '\t') == ["rs1", "[A/G]\n"]
  {
    assert "rs1\t[A/G]\n" == "rs1" + ['\t'] + "[A/G]\n";
    SplitOnWord("rs1", "[A/G]\n", '\t');
    ExampleNoTab();
  }

  lemma ExampleNoTab()
    ensures '\t' !in "[A/G]\n"
  {
    var t := "[A/G]\n";
    assert forall k :: 0 <= k < |t| ==> t[k] != '\t';
  }

  lemma ExampleStrip()
    ensures Strip("[A/G]\n") == "[A/G]"
  {
    var s, t := "[A/G]\n", "[A/G]";
    assert t == s[0..5];
    assert StrippedAt(s, t, 0);
    StripUnique(s, t, 0);
  }

  /** The intended reading, which the model's override follows: a replacement
      `[x/y]` that patches a Plus-strand marker is read back by snpUpdate as
      the reference alleles x and y. */
  lemma OverrideReadBack(names: seq<string>, snps: seq<string>, line: string, x: char, y: char)
    requires |names| == |snps|
    requires OverrideTarget(names, line).Some? && '\t' in line
    requires Replacement(line) == ['[', x, '/', y, ']']
    ensures var r := OverrideLine(names, snps, line);
      && r.Ok? && r.value.1
      && ReferenceAlleles(r.value.0[OverrideTarget(names, line).value], Plus) == Ok((x, y))
  {
    BracketedReferenceAlleles(x, y, Plus);
  }
}
