/** The few Python built-ins the mutation engine leans on: its exceptions,
    `str.split()`, `str.split(sep)`, `str.rstrip()`, `str.strip()` and
    `list.index(x)`, each with the behaviour of Python 3 on ASCII text. */
module Builtins {

  /** The exceptions the engine can raise. Every one of them is uncaught in the
      update driver, except the ValueError of an override lookup. */
  datatype PyError =
    | KeyError          // a dict lookup on a missing key
    | IndexError        // a list or string index out of range
    | ValueError        // list.index on an absent element
    | AssertionError    // a failed assert statement
    | TypeError         // a field of the record that is not the list the code indexes
    | UnboundLocalError // a local read before any assignment
    | FileNotFoundError // a source record that cannot be loaded

  datatype Option<+T> = None | Some(value: T)

  datatype Result<+T> = Ok(value: T) | Err(error: PyError)

  /** `str.isspace()` on a single ASCII character. */
  predicate IsSpace(c: char) {
    c == ' ' || c == '\t' || c == '\n' || c == '\r' || c == '\U{000B}' || c == '\U{000C}'
    || ('\U{001C}' <= c <= '\U{001F}')
  }

  /** Length of the run of non-space characters that starts `s`. */
  function WordLength(s: string): (n: nat)
    ensures n <= |s|
    ensures forall k :: 0 <= k < n ==> !IsSpace(s[k])
    ensures n == |s| || IsSpace(s[n])
  {
    if |s| == 0 || IsSpace(s[0]) then 0 else 1 + WordLength(s[1..])
  }

  /** `s.split()`: the maximal runs of non-space characters, in order. */
  function Tokens(s: string): (r: seq<string>)
    ensures forall t :: t in r ==> |t| > 0 && forall k :: 0 <= k < |t| ==> !IsSpace(t[k])
    ensures (forall k :: 0 <= k < |s| ==> IsSpace(s[k])) <==> r == []
    decreases |s|
  {
    if |s| == 0 then []
    else if IsSpace(s[0]) then Tokens(s[1..])
    else
      var n := WordLength(s);
      [s[..n]] + Tokens(s[n..])
  }

  /** A word of non-space characters followed by whitespace or nothing is the
      first token of the text. */
  lemma {:induction false} TokensWord(w: string, rest: string)
    requires |w| > 0 && forall k :: 0 <= k < |w| ==> !IsSpace(w[k])
    requires rest == [] || IsSpace(rest[0])
    ensures Tokens(w + rest) == [w] + Tokens(rest)
  {
    WordLengthOfWord(w, rest);
    assert (w + rest)[..|w|] == w;
    assert (w + rest)[|w|..] == rest;
  }

  /** Two words separated by a space and ended by a newline split into
      those two words. */
  lemma TokensOfLine(w1: string, w2: string)
    requires |w1| > 0 && forall k :: 0 <= k < |w1| ==> !IsSpace(w1[k])
    requires |w2| > 0 && forall k :: 0 <= k < |w2| ==> !IsSpace(w2[k])
    ensures Tokens(w1 + (" " + (w2 + "\n"))) == [w1, w2]
  {
    var tail := w2 + "\n";
    TokensWord(w2, "\n");
    assert Tokens("\n") == [];
    var t2 := Tokens(tail);
    assert t2 == [w2];
    TokensSkipSpace(" " + tail);
    assert (" " + tail)[1..] == tail;
    TokensWord(w1, " " + tail);
  }

  /** Leading whitespace contributes no token. */
  lemma TokensSkipSpace(s: string)
    requires |s| > 0 && IsSpace(s[0])
    ensures Tokens(s) == Tokens(s[1..])
  {
  }

  lemma {:induction false} WordLengthOfWord(w: string, rest: string)
    requires forall k :: 0 <= k < |w| ==> !IsSpace(w[k])
    requires rest == [] || IsSpace(rest[0])
    ensures WordLength(w + rest) == |w|
    decreases |w|
  {
    if |w| > 0 {
      assert (w + rest)[1..] == w[1..] + rest;
      WordLengthOfWord(w[1..], rest);
    } else {
      assert w + rest == rest;
    }
  }

  /** `s.rstrip()`: `s` without its trailing whitespace. */
  function Rstrip(s: string): (r: string)
    ensures |r| <= |s| && r == s[..|r|]
    ensures r == [] || !IsSpace(r[|r| - 1])
    ensures forall k :: |r| <= k < |s| ==> IsSpace(s[k])
  {
    if |s| > 0 && IsSpace(s[|s| - 1]) then Rstrip(s[..|s| - 1]) else s
  }

  /** `s.lstrip()`: `s` without its leading whitespace. */
  function Lstrip(s: string): (r: string)
    ensures |r| <= |s| && r == s[|s| - |r|..]
    ensures r == [] || !IsSpace(r[0])
    ensures forall k :: 0 <= k < |s| - |r| ==> IsSpace(s[k])
  {
    if |s| > 0 && IsSpace(s[0]) then Lstrip(s[1..]) else s
  }

  /** The number of whitespace characters that start `s`. */
  function LeadingSpace(s: string): (n: nat)
    ensures n <= |s|
    ensures forall k :: 0 <= k < n ==> IsSpace(s[k])
    ensures n == |s| || !IsSpace(s[n])
  {
    if |s| == 0 || !IsSpace(s[0]) then 0 else 1 + LeadingSpace(s[1..])
  }

  /** `s.strip()`: the slice of `s` that starts after its leading whitespace,
      with only whitespace after it, and that neither starts nor ends with
      whitespace, which fixes it (StripUnique). */
  function Strip(s: string): (r: string)
    ensures r == [] || (!IsSpace(r[0]) && !IsSpace(r[|r| - 1]))
    ensures StrippedAt(s, r, LeadingSpace(s))
  {
    StripSlice(s);
    Lstrip(Rstrip(s))
  }

  /** Stripping the right end, then the left, leaves the slice of `s` after
      its leading whitespace, with only whitespace after it. */
  lemma StripSlice(s: string)
    ensures var r := Lstrip(Rstrip(s));
      && (r == [] || (!IsSpace(r[0]) && !IsSpace(r[|r| - 1])))
      && StrippedAt(s, r, LeadingSpace(s))
  {
    var right := Rstrip(s);
    var r := Lstrip(right);
    SliceOfPrefix(s, right, r);
    StrippedAtStart(s, r, |right| - |r|);
  }

  /** A suffix `r` of a prefix `right` of `s`, with only whitespace after
      `right` and before `r`, is a slice of `s` with only whitespace outside
      it. */
  lemma SliceOfPrefix(s: string, right: string, r: string)
    requires |right| <= |s| && right == s[..|right|]
    requires forall k :: |right| <= k < |s| ==> IsSpace(s[k])
    requires |r| <= |right| && r == right[|right| - |r|..]
    requires forall k :: 0 <= k < |right| - |r| ==> IsSpace(right[k])
    requires right == [] || !IsSpace(right[|right| - 1])
    requires r == [] || !IsSpace(r[0])
    ensures r == [] || (!IsSpace(r[0]) && !IsSpace(r[|r| - 1]))
    ensures StrippedAt(s, r, |right| - |r|)
  {
    var i := |right| - |r|;
    assert r != [] ==> r[|r| - 1] == right[|right| - 1];
    assert r == s[i..i + |r|];
    assert forall k :: 0 <= k < i ==> right[k] == s[k];
  }

  /** A slice with only whitespace outside it that does not start with
      whitespace begins where the leading whitespace of `s` ends. */
  lemma StrippedAtStart(s: string, r: string, i: nat)
    requires StrippedAt(s, r, i) && (r == [] || !IsSpace(r[0]))
    ensures StrippedAt(s, r, LeadingSpace(s))
  {
    if r != [] {
      assert r[0] == s[i];
      LeadingSpaceAt(s, i);
    } else {
      assert forall k :: 0 <= k < |s| ==> IsSpace(s[k]);
      assert LeadingSpace(s) == |s|;
    }
  }

  /** The first non-whitespace character of `s` ends its leading whitespace. */
  lemma LeadingSpaceAt(s: string, i: nat)
    requires i < |s| && !IsSpace(s[i])
    requires forall k :: 0 <= k < i ==> IsSpace(s[k])
    ensures LeadingSpace(s) == i
  {
    var n := LeadingSpace(s);
    assert n == i;
  }

  /** `r` is `s[i..i + |r|]`, and every character of `s` outside it is
      whitespace. */
  predicate StrippedAt(s: string, r: string, i: nat)
  {
    i + |r| <= |s| && r == s[i..i + |r|]
    && (forall k :: 0 <= k < i ==> IsSpace(s[k]))
    && (forall k :: i + |r| <= k < |s| ==> IsSpace(s[k]))
  }

  /** A slice with only whitespace outside it, that neither starts nor ends
      with whitespace, is the stripped text. */
  lemma StripUnique(s: string, t: string, i: nat)
    requires t == [] || (!IsSpace(t[0]) && !IsSpace(t[|t| - 1]))
    requires StrippedAt(s, t, i)
    ensures t == Strip(s)
  {
    var r := Strip(s);
    var j := LeadingSpace(s);
    if t == [] {
      assert forall k :: 0 <= k < |s| ==> IsSpace(s[k]);
      assert r == [];
    } else {
      assert t[0] == s[i] && t[|t| - 1] == s[i + |t| - 1];
      assert r != [];
      assert r[0] == s[j] && r[|r| - 1] == s[j + |r| - 1];
      assert i == j;
      assert i + |t| == j + |r|;
    }
  }

  /** `s.split(sep)` for a one-character separator: every occurrence splits,
      empty pieces are kept, and the result is never empty. */
  function SplitOn(s: string, sep: char): (r: seq<string>)
    ensures |r| >= 1
    ensures sep !in s ==> r == [s]
    ensures sep in s ==> |r| >= 2
    ensures forall t :: t in r ==> sep !in t
    ensures Join(r, sep) == s
  {
    if |s| == 0 then [""]
    else
      var rest := SplitOn(s[1..], sep);
      if s[0] == sep then
        assert s == [] + [sep] + s[1..];
        [""] + rest
      else
        assert sep !in s ==> s == [s[0]] + s[1..];
        var r := [[s[0]] + rest[0]] + rest[1..];
        JoinConsFirst(s[0], rest, sep);
        r
  }

  /** A text that starts with a word free of `sep`, then `sep`, splits into
      that word followed by the parts of the rest. */
  lemma {:induction false} SplitOnWord(w: string, rest: string, sep: char)
    requires sep !in w
    ensures SplitOn(w + [sep] + rest, sep) == [w] + SplitOn(rest, sep)
    decreases |w|
  {
    var s := w + [sep] + rest;
    if |w| == 0 {
      assert s[1..] == rest;
    } else {
      assert s[1..] == w[1..] + [sep] + rest;
      SplitOnWord(w[1..], rest, sep);
      assert [w[0]] + w[1..] == w;
    }
  }

  /** `sep.join(parts)`: the parts with one separator between neighbours. */
  function Join(parts: seq<string>, sep: char): string
    requires |parts| >= 1
  {
    if |parts| == 1 then parts[0] else parts[0] + [sep] + Join(parts[1..], sep)
  }

  /** Prepending a character to the first part prepends it to the join. */
  lemma JoinConsFirst(c: char, parts: seq<string>, sep: char)
    requires |parts| >= 1
    ensures Join([[c] + parts[0]] + parts[1..], sep) == [c] + Join(parts, sep)
  {
    var q := [[c] + parts[0]] + parts[1..];
    assert q[1..] == parts[1..];
  }

  /** `xs.index(x)`: the position of the first occurrence, or None where
      Python raises ValueError. */
  function IndexOf<T(==)>(xs: seq<T>, x: T): (r: Option<nat>)
    ensures r.None? <==> x !in xs
    ensures r.Some? ==> r.value < |xs| && xs[r.value] == x && x !in xs[..r.value]
  {
    if |xs| == 0 then None
    else if xs[0] == x then Some(0)
    else
      match IndexOf(xs[1..], x)
      case None => None
      case Some(i) =>
        assert xs[1..][..i] == xs[1..i + 1];
        Some(i + 1)
  }
}
