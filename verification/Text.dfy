/** Splitting on a separator and prefixes, shared by the models that read strings. */
module Text {
  /** Splitting on one character, as in JavaScript and Rust; the result is never empty. */
  function Split(s: string, d: char): (parts: seq<string>)
    ensures parts != []
  {
    if s == "" then [""]
    else
      var rest := Split(s[1..], d);
      if s[0] == d then [""] + rest else [[s[0]] + rest[0]] + rest[1..]
  }

  lemma {:induction false} SplitWithout(s: string, d: char)
    requires d !in s
    ensures Split(s, d) == [s]
  {
    if s != "" {
      SplitWithout(s[1..], d);
      assert [s[0]] + s[1..] == s && [s[1..]][1..] == [];
    }
  }

  lemma {:induction false} SplitFirst(x: string, rest: string, d: char)
    requires d !in x
    ensures Split(x + [d] + rest, d) == [x] + Split(rest, d)
  {
    if x == "" {
      assert x + [d] + rest == [d] + rest;
      assert ([d] + rest)[1..] == rest;
    } else {
      var s := x + [d] + rest;
      assert s[0] == x[0] && s[1..] == x[1..] + [d] + rest;
      SplitFirst(x[1..], rest, d);
      assert Split(s[1..], d)[1..] == Split(rest, d) && [x[0]] + x[1..] == x;
    }
  }

  lemma NotPrefixAt(p: string, s: string, n: nat)
    requires n < |p| && n < |s| && p[n] != s[n]
    ensures !(p <= s)
  {
  }

  lemma PrefixHead(p: string, s: string)
    ensures p != "" && p <= s ==> s != "" && p[0] == s[0]
  {
  }

  // ------------------------------------------------------------------------------------------------
  // Rust's str::split_whitespace.

  /** The White_Space property of Unicode. */
  predicate IsSpace(c: char) {
    var n := c as int;
    || 0x9 <= n <= 0xD || n == 0x20 || n == 0x85 || n == 0xA0 || n == 0x1680
    || 0x2000 <= n <= 0x200A || n == 0x2028 || n == 0x2029 || n == 0x202F || n == 0x205F || n == 0x3000
  }

  predicate NoSpace(s: string) {
    forall i :: 0 <= i < |s| ==> !IsSpace(s[i])
  }

  function WordLength(s: string): (n: nat)
    ensures n <= |s| && NoSpace(s[..n]) && (n < |s| ==> IsSpace(s[n]))
  {
    if s == "" || IsSpace(s[0]) then 0 else WordLength(s[1..]) + 1
  }

  function Words(s: string): seq<string>
    decreases |s|
  {
    if s == "" then []
    else if IsSpace(s[0]) then Words(s[1..])
    else [s[..WordLength(s)]] + Words(s[WordLength(s)..])
  }

  predicate Breaks(r: string) {
    r == "" || IsSpace(r[0])
  }

  lemma {:induction false} WordLengthOf(w: string, r: string)
    requires NoSpace(w) && Breaks(r)
    ensures WordLength(w + r) == |w|
  {
    if w == "" {
      assert w + r == r;
    } else {
      assert (w + r)[0] == w[0] && (w + r)[1..] == w[1..] + r;
      WordLengthOf(w[1..], r);
    }
  }

  lemma WordsOf(w: string, r: string)
    requires w != "" && NoSpace(w) && Breaks(r)
    ensures Words(w + r) == [w] + Words(r)
  {
    WordLengthOf(w, r);
    assert (w + r)[..|w|] == w && (w + r)[|w|..] == r && (w + r)[0] == w[0];
  }
}
