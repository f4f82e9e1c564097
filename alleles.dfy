/** The allele-resolution core of `snpUpdate`: the strand complement table,
    the strand-corrected reference alleles of a marker, the genotype-code
    decision for a requested allele pair and the base call that goes with it. */
module Alleles {
  import opened Builtins

  /** The strand a marker's manifest alleles are stated on. Only Minus changes
      anything: its alleles are complemented before use, so a strand the
      manifest records as unknown reads like Plus and is modelled as Plus. */
  datatype RefStrand = Plus | Minus

  /** `dict(zip(keys, values))[c]` restricted to the first `n` pairs: the value
      of the LAST pair whose key is `c`, since a repeated key overwrites the
      entry of the earlier one. */
  function DictGet(keys: string, values: string, n: nat, c: char): (r: Option<char>)
    requires n <= |keys| == |values|
    ensures r.None? <==> c !in keys[..n]
  {
    if n == 0 then None
    else if keys[n - 1] == c then Some(values[n - 1])
    else
      assert keys[..n] == keys[..n - 1] + [keys[n - 1]];
      var r := DictGet(keys, values, n - 1, c);
      r
  }

  /** Of several pairs with the same key, the last one decides the value. */
  lemma {:induction false} DictGetLastWins(keys: string, values: string, n: nat, i: nat, c: char)
    requires n <= |keys| == |values|
    requires i < n && keys[i] == c && c !in keys[i + 1..n]
    ensures DictGet(keys, values, n, c) == Some(values[i])
  {
    if i < n - 1 {
      assert keys[n - 1] in keys[i + 1..n];
      assert keys[i + 1..n - 1] == keys[i + 1..n][..n - 1 - (i + 1)];
      DictGetLastWins(keys, values, n - 1, i, c);
    }
  }

  /** The two strings COMPLEMENT_MAP is zipped from: 'D' occurs twice as a key. */
  const ComplementKeys: string := "ABCDGHKMRTVYNID"
  const ComplementValues: string := "TVGHCDMKYABRNID"

  /** The table COMPLEMENT_MAP ends up holding, written out: A/T, C/G, B/V, K/M
      and R/Y swapped, N, I and D fixed, H sent to D, and nothing else. */
  function ComplementTable(c: char): Option<char> {
    match c
    case 'A' => Some('T')
    case 'B' => Some('V')
    case 'C' => Some('G')
    case 'D' => Some('D')
    case 'G' => Some('C')
    case 'H' => Some('D')
    case 'K' => Some('M')
    case 'M' => Some('K')
    case 'R' => Some('Y')
    case 'T' => Some('A')
    case 'V' => Some('B')
    case 'Y' => Some('R')
    case 'N' => Some('N')
    case 'I' => Some('I')
    case _ => None
  }

  /** The table's keys are the characters COMPLEMENT_MAP is zipped from, and
      every complement is one of its values. */
  lemma ComplementTableDomain(c: char)
    ensures ComplementTable(c).Some? <==> c in ComplementKeys
    ensures ComplementTable(c).Some? ==> ComplementTable(c).value in ComplementValues
  {
  }

  /** COMPLEMENT_MAP as the source builds it is exactly ComplementTable: the
      second 'D' pair (D to D) overwrites the first (D to H), so 'D' is fixed,
      while 'H' keeps its own pair (H to D). */
  lemma {:induction false} ComplementMapIsTable(c: char)
    ensures DictGet(ComplementKeys, ComplementValues, |ComplementKeys|, c) == ComplementTable(c)
  {
    var ks, vs := ComplementKeys, ComplementValues;
    // one unfolding per pair, from the last pair back to the first
    assert DictGet(ks, vs, 15, c) == if c == 'D' then Some('D') else DictGet(ks, vs, 14, c);
    assert DictGet(ks, vs, 14, c) == if c == 'I' then Some('I') else DictGet(ks, vs, 13, c);
    assert DictGet(ks, vs, 13, c) == if c == 'N' then Some('N') else DictGet(ks, vs, 12, c);
    assert DictGet(ks, vs, 12, c) == if c == 'Y' then Some('R') else DictGet(ks, vs, 11, c);
    assert DictGet(ks, vs, 11, c) == if c == 'V' then Some('B') else DictGet(ks, vs, 10, c);
    assert DictGet(ks, vs, 10, c) == if c == 'T' then Some('A') else DictGet(ks, vs, 9, c);
    assert DictGet(ks, vs, 9, c) == if c == 'R' then Some('Y') else DictGet(ks, vs, 8, c);
    assert DictGet(ks, vs, 8, c) == if c == 'M' then Some('K') else DictGet(ks, vs, 7, c);
    assert DictGet(ks, vs, 7, c) == if c == 'K' then Some('M') else DictGet(ks, vs, 6, c);
    assert DictGet(ks, vs, 6, c) == if c == 'H' then Some('D') else DictGet(ks, vs, 5, c);
    assert DictGet(ks, vs, 5, c) == if c == 'G' then Some('C') else DictGet(ks, vs, 4, c);
    assert DictGet(ks, vs, 4, c) == if c == 'D' then Some('H') else DictGet(ks, vs, 3, c);
    assert DictGet(ks, vs, 3, c) == if c == 'C' then Some('G') else DictGet(ks, vs, 2, c);
    assert DictGet(ks, vs, 2, c) == if c == 'B' then Some('V') else DictGet(ks, vs, 1, c);
    assert DictGet(ks, vs, 1, c) == if c == 'A' then Some('T') else DictGet(ks, vs, 0, c);
  }

  /** `COMPLEMENT_MAP[c]`: a KeyError for any letter outside the table. */
  function Complement(c: char): (r: Result<char>)
    ensures r == match ComplementTable(c) case Some(d) => Ok(d) case None => Err(KeyError)
  {
    ComplementMapIsTable(c);
    match DictGet(ComplementKeys, ComplementValues, |ComplementKeys|, c)
    case Some(d) => Ok(d)
    case None => Err(KeyError)
  }

  /** The four bases are complemented by the Watson-Crick swap: A with T,
      C with G. */
  lemma ComplementSwapsBases()
    ensures Complement('A') == Ok('T') && Complement('T') == Ok('A')
    ensures Complement('C') == Ok('G') && Complement('G') == Ok('C')
  {
  }

  /** The ambiguity codes B/V, K/M and R/Y are swapped with their partners. */
  lemma ComplementSwapsAmbiguity()
    ensures Complement('B') == Ok('V') && Complement('V') == Ok('B')
    ensures Complement('K') == Ok('M') && Complement('M') == Ok('K')
    ensures Complement('R') == Ok('Y') && Complement('Y') == Ok('R')
  {
  }

  /** N, I and D are their own complements, and H is sent to D rather than
      back to itself. */
  lemma ComplementFixesAndH()
    ensures Complement('N') == Ok('N') && Complement('I') == Ok('I') && Complement('D') == Ok('D')
    ensures Complement('H') == Ok('D')
  {
  }

  /** The table is defined on exactly fourteen letters; any other character,
      the no-call '-' included, raises KeyError. */
  lemma ComplementDomain(c: char)
    ensures Complement(c).Ok? <==> c in {'A', 'B', 'C', 'D', 'G', 'H', 'K', 'M', 'R', 'T', 'V', 'Y', 'N', 'I'}
  {
  }

  /** Complementing twice gives the letter back for every key except H, which
      comes back as D: the table is an involution only on the other thirteen. */
  lemma ComplementTwice(c: char)
    requires Complement(c).Ok?
    ensures Complement(Complement(c).value).Ok?
    ensures c != 'H' ==> Complement(Complement(c).value) == Ok(c)
    ensures c == 'H' ==> Complement(Complement(c).value) == Ok('D')
  {
  }

  /** `manifestSnps` of snpUpdate: the characters at index 1 and at index -2
      of the marker's allele string (so `[A/G]` gives A and G), both
      complemented when the marker is on the Minus strand. A string shorter
      than two characters raises IndexError, a letter outside the table
      KeyError. */
  function ReferenceAlleles(snp: string, strand: RefStrand): (r: Result<(char, char)>)
    ensures |snp| < 2 ==> r == Err(IndexError)
    ensures |snp| >= 2 && strand == Plus ==> r == Ok((snp[1], snp[|snp| - 2]))
    ensures |snp| >= 2 && strand == Minus ==>
      (r.Ok? <==> Complement(snp[1]).Ok? && Complement(snp[|snp| - 2]).Ok?)
    ensures r.Ok? && strand == Minus ==>
      Complement(snp[1]) == Ok(r.value.0) && Complement(snp[|snp| - 2]) == Ok(r.value.1)
  {
    if |snp| < 2 then Err(IndexError)
    else
      var a, b := snp[1], snp[|snp| - 2];
      if strand == Minus then
        match Complement(a)
        case Err(e) => Err(e)
        case Ok(ca) =>
          match Complement(b)
          case Err(e) => Err(e)
          case Ok(cb) => Ok((ca, cb))
      else Ok((a, b))
  }

  /** For a bracketed allele string `[x/y]` the reference alleles are x and y
      on the Plus strand; on the Minus strand they are the complements, and
      complementing them once more gives x and y back unless one of them is H. */
  lemma BracketedReferenceAlleles(x: char, y: char, strand: RefStrand)
    ensures strand == Plus ==> ReferenceAlleles(['[', x, '/', y, ']'], strand) == Ok((x, y))
    ensures strand == Minus && Complement(x).Ok? && Complement(y).Ok? && x != 'H' && y != 'H' ==>
      var r := ReferenceAlleles(['[', x, '/', y, ']'], strand);
      r.Ok? && Complement(r.value.0) == Ok(x) && Complement(r.value.1) == Ok(y)
  {
    if strand == Minus && Complement(x).Ok? && Complement(y).Ok? {
      ComplementTwice(x);
      ComplementTwice(y);
    }
  }

  /** What the genotype branch of snpUpdate does with `data[1002][loc]`,
      together with the value `newSnps[0]` has when the base-call branch reads
      it (the homozygous branch may have replaced it by its complement). */
  datatype Decision =
    | Assign(code: int, allele: char)  // `data[1002][loc] = code`
    | Keep(allele: char)               // no branch matched: the old code stays

  /** A homozygous request that is not the no-call pair. */
  predicate Homozygous(r0: char, r1: char) {
    r0 == r1 && r0 != '-'
  }

  /** The homozygous request resolves to the first reference allele: directly,
      or (when it is neither reference allele) through its complement. */
  predicate MatchesFirstReference(r0: char, refs: (char, char)) {
    r0 == refs.0 || (r0 != refs.1 && Complement(r0) == Ok(refs.0))
  }

  /** The genotype-code decision of snpUpdate for the requested pair (r0, r1)
      against the strand-corrected reference alleles `refs`: 2 for two
      different letters unless the first is '-', whatever the references are;
      0 for `--`; 1 or 3 for a homozygous pair, 1 exactly when it resolves to
      the first reference allele; and for `-X` no code at all. The only
      failure is the complement lookup of a homozygous letter that is neither
      a reference allele nor in the table. */
  function Classify(r0: char, r1: char, refs: (char, char)): (d: Result<Decision>)
    ensures d.Err? <==> Homozygous(r0, r1) && r0 != refs.0 && r0 != refs.1 && Complement(r0).Err?
    ensures d.Err? ==> d.error == KeyError
    ensures d.Ok? ==> (d.value.Keep? <==> r0 == '-' && r1 != '-')
    ensures d.Ok? && d.value.Keep? ==> d.value.allele == r0
    ensures d.Ok? ==> (d.value == Assign(2, r0) <==> r0 != r1 && r0 != '-')
    ensures d.Ok? ==> (d.value == Assign(0, '-') <==> r0 == '-' && r1 == '-')
    ensures d.Ok? && d.value.Assign? ==> d.value.code in {0, 1, 2, 3}
    ensures d.Ok? && d.value.Assign? && d.value.code in {1, 3} ==> Homozygous(r0, r1)
    ensures d.Ok? && Homozygous(r0, r1) ==>
      d.value.Assign? && (d.value.code == 1 <==> MatchesFirstReference(r0, refs))
    ensures d.Ok? && Homozygous(r0, r1) ==>
      d.value.allele == if r0 == refs.0 || r0 == refs.1 then r0 else Complement(r0).value
  {
    if r0 != r1 && r0 != '-' then Ok(Assign(2, r0))
    else if r0 == '-' && r1 == '-' then Ok(Assign(0, r0))
    else if r0 == r1 then
      if r0 == refs.0 || r0 == refs.1 then
        Ok(Assign(if r0 == refs.0 then 1 else 3, r0))
      else
        match Complement(r0)
        case Err(e) => Err(e)
        case Ok(c) => Ok(Assign(if c == refs.0 then 1 else 3, c))
    else Ok(Keep(r0))
  }

  /** The pair the base call is spelled from: the strand-corrected manifest
      alleles when `newSnps[0]` is an indel sentinel (I or D), the CSV
      alleles of the marker otherwise. */
  function CallAlleles(allele: char, refs: (char, char), csvAlleles: (char, char)): (p: (char, char))
    ensures allele == 'I' || allele == 'D' ==> p == refs
    ensures allele != 'I' && allele != 'D' ==> p == csvAlleles
  {
    if allele == 'I' || allele == 'D' then refs else csvAlleles
  }

  /** The base-call string of snpUpdate for a genotype code: `--` for code 0,
      otherwise two letters of the chosen pair (a, b): a+a for 1, a+b for 2,
      and b+b for 3 and for any other code. */
  function BaseCall(code: int, allele: char, refs: (char, char), csvAlleles: (char, char)): (call: string)
    ensures |call| == 2
    ensures code == 0 ==> call == "--"
    ensures code != 0 ==>
      var (a, b) := CallAlleles(allele, refs, csvAlleles);
      (call[0] == a || call[0] == b) && (call[1] == a || call[1] == b)
    ensures var p := CallAlleles(allele, refs, csvAlleles);
      && (code == 1 ==> call == [p.0, p.0])
      && (code == 2 ==> call == [p.0, p.1])
      && (code !in {0, 1, 2} ==> call == [p.1, p.1])
  {
    if code == 0 then "--"
    else
      var (a, b) := CallAlleles(allele, refs, csvAlleles);
      if code == 1 then [a, a]
      else if code == 2 then [a, b]
      else [b, b]
  }

  /** Reads a genotype code back from a base call and the pair it is spelled
      from: the reading a consumer of the record applies. */
  function GenotypeOfCall(call: string, pair: (char, char)): Option<int> {
    if call == "--" then Some(0)
    else if call == [pair.0, pair.0] then Some(1)
    else if call == [pair.0, pair.1] then Some(2)
    else if call == [pair.1, pair.1] then Some(3)
    else None
  }

  /** Code and base call stay jointly consistent: for two distinct alleles
      other than '-', the base call written for any of the four codes reads
      back as that code, so no two codes share a base call. */
  lemma BaseCallDeterminesCode(code: int, allele: char, refs: (char, char), csvAlleles: (char, char))
    requires code in {0, 1, 2, 3}
    requires var p := CallAlleles(allele, refs, csvAlleles); p.0 != p.1 && p.0 != '-' && p.1 != '-'
    ensures GenotypeOfCall(BaseCall(code, allele, refs, csvAlleles), CallAlleles(allele, refs, csvAlleles)) == Some(code)
  {
    var p := CallAlleles(allele, refs, csvAlleles);
    var call := BaseCall(code, allele, refs, csvAlleles);
    if code != 0 {
      assert call != "--" by { assert call[0] != '-'; }
    }
  }
}
