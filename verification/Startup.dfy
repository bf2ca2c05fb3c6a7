/** The startup command: {{KEY}} placeholders are replaced one key at a time with JavaScript's String.replace, and
    Wings splits the result on whitespace. */
module Startup {
  import opened Text

  datatype Entry = Entry(key: string, value: string)

  predicate IsWordChar(c: char) {
    'a' <= c <= 'z' || 'A' <= c <= 'Z' || '0' <= c <= '9' || c == '_'
  }

  predicate IsWord(k: string) {
    forall i :: 0 <= i < |k| ==> IsWordChar(k[i])
  }

  /** The literal text the regular expression of a word key matches. */
  function Token(key: string): string {
    "{{" + key + "}}"
  }

  // ------------------------------------------------------------------------------------------------
  // String.prototype.replace with a global pattern that matches exactly the text p.

  predicate IsSpecial(c: char) {
    c == '$' || c == '&' || c == '`' || c == '\''
  }

  /** GetSubstitution of ECMA-262 for a match without captures: `$$`, `$&`, `` $` `` and `$'` are patterns. */
  function Expand(v: string, matched: string, before: string, after: string): string {
    if |v| < 2 then v
    else if v[0] == '$' && IsSpecial(v[1]) then
      (if v[1] == '$' then "$" else if v[1] == '&' then matched else if v[1] == '`' then before else after)
      + Expand(v[2..], matched, before, after)
    else [v[0]] + Expand(v[1..], matched, before, after)
  }

  function ReplaceFrom(s: string, i: nat, p: string, v: string): string
    requires i <= |s| && p != ""
    decreases |s| - i
  {
    if i == |s| then ""
    else if p <= s[i..] then Expand(v, p, s[..i], s[i + |p|..]) + ReplaceFrom(s, i + |p|, p, v)
    else [s[i]] + ReplaceFrom(s, i + 1, p, v)
  }

  function ReplaceAll(s: string, p: string, v: string): string
    requires p != ""
  {
    ReplaceFrom(s, 0, p, v)
  }

  /** What the loop over Object.entries(envVariables) computes, key by key. */
  function ReplaceKeys(s: string, entries: seq<Entry>): string
    decreases |entries|
  {
    if entries == [] then s
    else ReplaceKeys(ReplaceAll(s, Token(entries[0].key), entries[0].value), entries[1..])
  }

  method BuildStartup(template: string, entries: seq<Entry>) returns (startup: string)
    ensures startup == ReplaceKeys(template, entries)
  {
    startup := template;
    for i := 0 to |entries|
      invariant ReplaceKeys(startup, entries[i..]) == ReplaceKeys(template, entries)
    {
      assert entries[i..][1..] == entries[i + 1..];
      startup := ReplaceAll(startup, Token(entries[i].key), entries[i].value);
    }
  }

  // ------------------------------------------------------------------------------------------------
  // Values that are inserted verbatim.

  predicate PatternAt(v: string, i: int) {
    0 <= i < |v| - 1 && v[i] == '$' && IsSpecial(v[i + 1])
  }

  predicate Inert(v: string) {
    forall i :: 0 <= i < |v| ==> !PatternAt(v, i)
  }

  lemma PatternInTail(v: string, i: int)
    requires v != "" && 0 <= i
    ensures PatternAt(v[1..], i) <==> PatternAt(v, i + 1)
  {
  }

  lemma {:induction false} InertExpands(v: string, matched: string, before: string, after: string)
    requires Inert(v)
    ensures Expand(v, matched, before, after) == v
  {
    if |v| >= 2 {
      assert !PatternAt(v, 0);
      forall i | 0 <= i < |v[1..]| ensures !PatternAt(v[1..], i) { PatternInTail(v, i); }
      InertExpands(v[1..], matched, before, after);
    }
  }

  /** Where a value has no dollar sign it stands for itself; the four patterns stand for a dollar sign, the matched
      text, what precedes it and what follows it. */
  lemma ExpandPatterns(x: string, rest: string, matched: string, before: string, after: string)
    requires '$' !in x
    ensures Expand(x, matched, before, after) == x
    ensures Expand(x + "$$" + rest, matched, before, after) == x + "$" + Expand(rest, matched, before, after)
    ensures Expand(x + "$&" + rest, matched, before, after) == x + matched + Expand(rest, matched, before, after)
    ensures Expand(x + "$`" + rest, matched, before, after) == x + before + Expand(rest, matched, before, after)
    ensures Expand(x + "$'" + rest, matched, before, after) == x + after + Expand(rest, matched, before, after)
  {
    ExpandSkips(x, "", matched, before, after);
    assert x + "" == x;
    ExpandDollar(x, '$', "$", rest, matched, before, after);
    ExpandDollar(x, '&', matched, rest, matched, before, after);
    ExpandDollar(x, '`', before, rest, matched, before, after);
    ExpandDollar(x, '\'', after, rest, matched, before, after);
  }

  lemma OtherDollarStays(x: string, rest: string, matched: string, before: string, after: string)
    requires '$' !in x && (rest == "" || rest[0] !in "$&`'")
    ensures Expand(x + "$" + rest, matched, before, after) == x + "$" + Expand(rest, matched, before, after)
  {
    ExpandSkips(x, "$" + rest, matched, before, after);
    assert x + "$" + rest == x + ("$" + rest) && ("$" + rest)[1..] == rest;
  }

  lemma Prepend(c: char, x: string, rest: string)
    ensures [c] + (x + rest) == ([c] + x) + rest
  {
  }

  lemma {:induction false} ExpandSkips(x: string, rest: string, matched: string, before: string, after: string)
    requires '$' !in x
    ensures Expand(x + rest, matched, before, after) == x + Expand(rest, matched, before, after)
  {
    if x == "" {
      assert x + rest == rest;
    } else {
      var head, tail := x[0], x[1..];
      assert x == [head] + tail && head in x;
      Prepend(head, tail, rest);
      var s := [head] + (tail + rest);
      assert s[0] == head && s[1..] == tail + rest;
      ExpandSkips(tail, rest, matched, before, after);
      if |s| < 2 {
        assert tail == "" && rest == "";
      } else {
        Prepend(head, tail, Expand(rest, matched, before, after));
      }
    }
  }

  lemma ExpandDollar(
    x: string, c: char, meaning: string, rest: string, matched: string, before: string, after: string)
    requires '$' !in x && IsSpecial(c)
    requires meaning == if c == '$' then "$" else if c == '&' then matched else if c == '`' then before else after
    ensures Expand(x + ['$', c] + rest, matched, before, after) == x + meaning + Expand(rest, matched, before, after)
  {
    ExpandSkips(x, ['$', c] + rest, matched, before, after);
    assert x + ['$', c] + rest == x + (['$', c] + rest) && (['$', c] + rest)[2..] == rest;
  }

  /** What cannot start a match is copied. */
  lemma {:induction false} CopiedFrom(s: string, i: nat, j: nat, p: string, v: string)
    requires i <= j <= |s| && p != "" && forall k :: i <= k < j ==> s[k] != p[0]
    ensures ReplaceFrom(s, i, p, v) == s[i..j] + ReplaceFrom(s, j, p, v)
    decreases j - i
  {
    if i < j {
      NotPrefixAt(p, s[i..], 0);
      CopiedFrom(s, i + 1, j, p, v);
      Prepend(s[i], s[i + 1..j], ReplaceFrom(s, j, p, v));
      assert s[i..j] == [s[i]] + s[i + 1..j];
    } else {
      assert s[i..j] == "";
    }
  }

  lemma ThreeParts(s: string, x: string, p: string, y: string, c: char)
    requires s == x + (p + y) && c !in x && c !in y
    ensures var i, j := |x|, |x| + |p|;
      j <= |s| && s[..i] == x && s[0..i] == x && s[i..] == p + y && s[j..] == y && s[j..|s|] == y
    ensures forall k :: 0 <= k < |x| || |x| + |p| <= k < |s| ==> s[k] != c
  {
    forall k | 0 <= k < |x| || |x| + |p| <= k < |s|
      ensures s[k] != c
    {
      assert s[k] == if k < |x| then x[k] else y[k - |x| - |p|];
    }
  }

  lemma CopiedBefore(s: string, x: string, p: string, y: string, v: string)
    requires s == x + (p + y) && p != "" && p[0] !in x && p[0] !in y
    ensures ReplaceAll(s, p, v) == x + ReplaceFrom(s, |x|, p, v)
  {
    ThreeParts(s, x, p, y, p[0]);
    CopiedFrom(s, 0, |x|, p, v);
  }

  lemma ReplacedAt(s: string, x: string, p: string, y: string, v: string)
    requires s == x + (p + y) && p != ""
    ensures |x| + |p| <= |s|
    ensures ReplaceFrom(s, |x|, p, v) == Expand(v, p, x, y) + ReplaceFrom(s, |x| + |p|, p, v)
  {
    assert s[|x|..] == p + y && s[..|x|] == x && s[|x| + |p|..] == y;
  }

  lemma CopiedAfter(s: string, x: string, p: string, y: string, v: string)
    requires s == x + (p + y) && p != "" && p[0] !in x && p[0] !in y
    ensures |x| + |p| <= |s| && ReplaceFrom(s, |x| + |p|, p, v) == y
  {
    ThreeParts(s, x, p, y, p[0]);
    CopiedFrom(s, |x| + |p|, |s|, p, v);
  }

  lemma OneMatch(s: string, x: string, p: string, y: string, v: string)
    requires s == x + (p + y) && p != "" && p[0] !in x && p[0] !in y
    ensures ReplaceAll(s, p, v) == x + (Expand(v, p, x, y) + y)
  {
    CopiedBefore(s, x, p, y, v);
    ReplacedAt(s, x, p, y, v);
    CopiedAfter(s, x, p, y, v);
  }

  /** A command with one placeholder, spelled out: the value takes its place, with the patterns of JavaScript. */
  lemma OnePlaceholder(before: string, key: string, after: string, v: string)
    requires '{' !in before && '{' !in after
    ensures ReplaceKeys(before + ("{{" + key + "}}" + after), [Entry(key, v)])
         == before + (Expand(v, "{{" + key + "}}", before, after) + after)
  {
    var p := "{{" + key + "}}";
    assert p[0] == '{' && p != "";
    OneMatch(before + (p + after), before, p, after, v);
    var entries := [Entry(key, v)];
    assert entries[1..] == [];
    var replaced := ReplaceAll(before + (p + after), p, v);
    assert ReplaceKeys(replaced, entries[1..]) == replaced;
  }

  lemma {:induction false} ExpandShrinks(v: string)
    ensures |Expand(v, "", "", "")| <= |v|
    ensures !Inert(v) ==> |Expand(v, "", "", "")| < |v|
  {
    if |v| >= 2 {
      if PatternAt(v, 0) {
        ExpandShrinks(v[2..]);
      } else {
        ExpandShrinks(v[1..]);
        if !Inert(v) {
          var i :| 0 <= i < |v| && PatternAt(v, i);
          PatternInTail(v, i - 1);
        }
      }
    }
  }

  /** How many `$&` are expanded. */
  function Matches(v: string): nat {
    if |v| < 2 then 0
    else if v[0] == '$' && IsSpecial(v[1]) then (if v[1] == '&' then 1 else 0) + Matches(v[2..])
    else Matches(v[1..])
  }

  /** A matched text that is longer by one makes the expansion longer by the number of `$&`. */
  lemma {:induction false} ExpandGrows(v: string, m: string, m': string)
    requires |m'| == |m| + 1
    ensures |Expand(v, m', "", "")| == |Expand(v, m, "", "")| + Matches(v)
    ensures Matches(v) == 0 ==> |Expand(v, m, "", "")| == |Expand(v, "", "", "")|
  {
    if |v| >= 2 {
      ExpandGrows(if PatternAt(v, 0) then v[2..] else v[1..], m, m');
    }
  }

  /** Replacement without `$` patterns. */
  function Splice(s: string, p: string, v: string): string
    requires p != ""
    decreases |s|
  {
    if s == "" then ""
    else if p <= s then v + Splice(s[|p|..], p, v)
    else [s[0]] + Splice(s[1..], p, v)
  }

  lemma ReplaceHere(s: string, i: nat, p: string, v: string)
    requires i < |s| && p != "" && p <= s[i..] && Inert(v)
    ensures ReplaceFrom(s, i, p, v) == v + ReplaceFrom(s, i + |p|, p, v)
  {
    InertExpands(v, p, s[..i], s[i + |p|..]);
  }

  lemma {:induction false} InertReplaceFrom(s: string, i: nat, p: string, v: string)
    requires i <= |s| && p != "" && Inert(v)
    ensures ReplaceFrom(s, i, p, v) == Splice(s[i..], p, v)
    decreases |s| - i
  {
    if i < |s| {
      if p <= s[i..] {
        ReplaceHere(s, i, p, v);
        InertReplaceFrom(s, i + |p|, p, v);
        assert s[i..][|p|..] == s[i + |p|..];
      } else {
        InertReplaceFrom(s, i + 1, p, v);
        assert s[i..][1..] == s[i + 1..];
      }
    }
  }

  lemma InertReplaceAll(s: string, p: string, v: string)
    requires p != "" && Inert(v)
    ensures ReplaceAll(s, p, v) == Splice(s, p, v)
  {
    InertReplaceFrom(s, 0, p, v);
    assert s[0..] == s;
  }

  // ------------------------------------------------------------------------------------------------
  // Templates and simultaneous substitution.

  datatype Piece = Text(text: string) | Var(key: string)

  function Render(t: seq<Piece>): string {
    if t == [] then ""
    else (if t[0].Text? then t[0].text else Token(t[0].key)) + Render(t[1..])
  }

  /** Every opening brace is followed by something else than an opening brace, as in JSON that is not empty. */
  predicate Harmless(text: string) {
    forall i :: 0 <= i < |text| && text[i] == '{' ==> i + 1 < |text| && text[i + 1] != '{'
  }

  predicate WellFormed(t: seq<Piece>) {
    forall i :: 0 <= i < |t| ==> if t[i].Text? then Harmless(t[i].text) else IsWord(t[i].key)
  }

  function SubstitutePiece(x: Piece, env: map<string, string>): Piece {
    if x.Var? && x.key in env then Text(env[x.key]) else x
  }

  /** All placeholders at once: a declared one becomes its value, everything else stays. */
  function Substitute(t: seq<Piece>, env: map<string, string>): seq<Piece> {
    seq(|t|, i requires 0 <= i < |t| => SubstitutePiece(t[i], env))
  }

  predicate Plain(entries: seq<Entry>) {
    forall i :: 0 <= i < |entries| ==> IsWord(entries[i].key) && Inert(entries[i].value)
  }

  /** The keys of an object are distinct. */
  predicate DistinctKeys(entries: seq<Entry>) {
    forall i, j :: 0 <= i < j < |entries| ==> entries[i].key != entries[j].key
  }

  function Env(entries: seq<Entry>): map<string, string> {
    if entries == [] then map[] else Env(entries[1..])[entries[0].key := entries[0].value]
  }

  /** One text continues the other. */
  predicate Meets(a: string, p: string) {
    p <= a || a <= p
  }

  /** No occurrence of p starts in the text, whatever follows it. */
  predicate Closed(text: string, p: string) {
    forall x :: 0 <= x < |text| ==> !Meets(text[x..], p)
  }

  lemma HarmlessIsClosed(text: string, k: string)
    requires Harmless(text)
    ensures Closed(text, Token(k))
  {
    var p := Token(k);
    forall x | 0 <= x < |text|
      ensures !Meets(text[x..], p)
    {
      assert p[0] == '{' && p[1] == '{' && text[x..][0] == text[x];
      if text[x] == '{' {
        assert text[x..][1] == text[x + 1];
      }
    }
  }

  lemma NoBraceIsHarmless(text: string)
    requires '{' !in text
    ensures Harmless(text)
  {
  }

  lemma PrefixMeets(l: string, r: string, p: string)
    ensures p <= l + r ==> Meets(l, p)
  {
  }

  lemma {:induction false} SpliceSkipsText(l: string, r: string, p: string, v: string)
    requires p != "" && Closed(l, p)
    ensures Splice(l + r, p, v) == l + Splice(r, p, v)
  {
    if l == "" {
      assert l + r == r;
    } else {
      assert l[0..] == l && !Meets(l[0..], p);
      PrefixMeets(l, r, p);
      assert (l + r)[0] == l[0] && (l + r)[1..] == l[1..] + r;
      forall x | 0 <= x < |l[1..]| ensures !Meets(l[1..][x..], p) {
        assert l[1..][x..] == l[x + 1..];
      }
      SpliceSkipsText(l[1..], r, p, v);
    }
  }

  lemma {:induction false} WordPrefix(k: string, k': string, r: string)
    requires IsWord(k) && IsWord(k') && k + "}" <= k' + "}" + r
    ensures k == k'
  {
    assert (k + "}")[0] == (k' + "}" + r)[0] == (k' + "}")[0];
    if k != "" && k' != "" {
      assert (k + "}")[1..] == k[1..] + "}" && (k' + "}" + r)[1..] == k'[1..] + "}" + r;
      WordPrefix(k[1..], k'[1..], r);
    }
  }

  lemma TokenPrefix(k: string, k': string, r: string)
    requires IsWord(k) && IsWord(k')
    ensures Token(k) <= Token(k') + r ==> k == k'
  {
    assert Token(k) == "{{" + (k + "}") + "}" && Token(k') + r == "{{" + (k' + "}" + ("}" + r));
    assert Token(k)[2..2 + |k| + 1] == k + "}" && (Token(k') + r)[2..] == k' + "}" + ("}" + r);
    if Token(k) <= Token(k') + r {
      WordPrefix(k, k', "}" + r);
    }
  }

  /** The token of another key passes through unchanged. */
  lemma SpliceSkipsToken(k: string, k': string, r: string, v: string)
    requires IsWord(k) && IsWord(k') && k != k'
    ensures Splice(Token(k') + r, Token(k), v) == Token(k') + Splice(r, Token(k), v)
  {
    var p, s := Token(k), Token(k') + r;
    TokenPrefix(k, k', r);
    var tail := k' + "}}";
    assert s[1..] == "{" + (tail + r);
    assert tail[0] == (if k' == "" then '}' else k'[0]) && (k' != "" ==> IsWordChar(k'[0]));
    assert p[1] == '{' && s[1..][1] == (tail + r)[0] == tail[0];
    NotPrefixAt(p, s[1..], 1);
    assert s[1..][1..] == tail + r;
    NoBraceIsHarmless(tail);
    HarmlessIsClosed(tail, k);
    SpliceSkipsText(tail, r, p, v);
    assert Splice(s, p, v) == [s[0]] + ([s[1]] + (tail + Splice(r, p, v)));
    assert Token(k') == "{" + ("{" + tail);
  }

  predicate ClosedFor(t: seq<Piece>, k: string) {
    forall i :: 0 <= i < |t| ==> if t[i].Text? then Closed(t[i].text, Token(k)) else IsWord(t[i].key)
  }

  lemma WellFormedIsClosed(t: seq<Piece>, k: string)
    requires WellFormed(t)
    ensures ClosedFor(t, k)
  {
    forall i | 0 <= i < |t| && t[i].Text?
      ensures Closed(t[i].text, Token(k))
    {
      HarmlessIsClosed(t[i].text, k);
    }
  }

  /** One key: replacing in the string is replacing in the template. */
  lemma {:induction false} SpliceIsSubstitution(t: seq<Piece>, k: string, v: string)
    requires ClosedFor(t, k) && IsWord(k)
    ensures Splice(Render(t), Token(k), v) == Render(Substitute(t, map[k := v]))
  {
    if t != [] {
      var r := Render(t[1..]);
      SpliceIsSubstitution(t[1..], k, v);
      assert Substitute(t, map[k := v])[1..] == Substitute(t[1..], map[k := v]);
      if t[0].Text? {
        SpliceSkipsText(t[0].text, r, Token(k), v);
      } else if t[0].key == k {
        assert (Token(k) + r)[|Token(k)|..] == r;
      } else {
        SpliceSkipsToken(k, t[0].key, r, v);
      }
    }
  }

  lemma ReplaceOwnPlaceholder(k: string, v: string)
    ensures ReplaceAll(Token(k), Token(k), v) == Expand(v, Token(k), "", "")
  {
    var p := Token(k);
    assert p[0..] == p && p[..0] == "" && p[|p|..] == "";
    assert ReplaceFrom(p, 0, p, v) == Expand(v, p, "", "") + ReplaceFrom(p, |p|, p, v);
  }

  /** Whatever the template and the key, replacing the placeholder inserts the value as it stands. */
  ghost predicate Verbatim(v: string) {
    forall t, k :: WellFormed(t) && IsWord(k) ==>
      ReplaceAll(Render(t), Token(k), v) == Render(Substitute(t, map[k := v]))
  }

  lemma OnItsOwn(k: string, v: string)
    requires Verbatim(v) && IsWord(k)
    ensures Expand(v, Token(k), "", "") == v
  {
    var t := [Var(k)];
    assert WellFormed(t) && t[1..] == [];
    assert Render(t) == Token(k) + "" == Token(k);
    assert Substitute(t, map[k := v]) == [Text(v)] && [Text(v)][1..] == [];
    assert Render([Text(v)]) == v + "" == v;
    ReplaceOwnPlaceholder(k, v);
  }

  /** MAIN RESULT. A value is inserted as it stands in every template, for every key, exactly when it has no `$` in
      front of one of `$`, `&`, `` ` `` and `'`. */
  lemma VerbatimIffInert(v: string)
    ensures Verbatim(v) <==> Inert(v)
  {
    if Verbatim(v) {
      OnItsOwn("", v);
      OnItsOwn("A", v);
      ExpandGrows(v, Token(""), Token("A"));
      ExpandShrinks(v);
    }
    if Inert(v) {
      forall t, k | WellFormed(t) && IsWord(k)
        ensures ReplaceAll(Render(t), Token(k), v) == Render(Substitute(t, map[k := v]))
      {
        WellFormedIsClosed(t, k);
        InertReplaceAll(Render(t), Token(k), v);
        SpliceIsSubstitution(t, k, v);
      }
    }
  }

  ghost predicate HasKey(entries: seq<Entry>, k: string) {
    exists i :: 0 <= i < |entries| && entries[i].key == k
  }

  lemma {:induction false} EnvKeys(entries: seq<Entry>, k: string)
    ensures k in Env(entries) <==> HasKey(entries, k)
  {
    if entries != [] {
      assert HasKey(entries, entries[0].key);
      EnvKeys(entries[1..], k);
      if HasKey(entries[1..], k) {
        var i :| 0 <= i < |entries[1..]| && entries[1..][i].key == k;
        assert entries[i + 1].key == k;
      }
    }
  }

  lemma {:induction false} EnvValue(entries: seq<Entry>, k: string)
    requires k in Env(entries)
    ensures exists j :: 0 <= j < |entries| && entries[j] == Entry(k, Env(entries)[k])
  {
    if entries[0].key == k {
      assert entries[0] == Entry(k, Env(entries)[k]);
    } else {
      EnvValue(entries[1..], k);
      var j :| 0 <= j < |entries[1..]| && entries[1..][j] == Entry(k, Env(entries)[k]);
      assert entries[j + 1] == entries[1..][j];
    }
  }

  lemma FirstKeyIsNew(entries: seq<Entry>)
    requires DistinctKeys(entries) && entries != []
    ensures entries[0].key !in Env(entries[1..])
  {
    EnvKeys(entries[1..], entries[0].key);
    assert forall i :: 0 <= i < |entries[1..]| ==> entries[1..][i].key == entries[i + 1].key;
  }

  lemma SubstituteTwice(t: seq<Piece>, k: string, v: string, env: map<string, string>)
    requires k !in env
    ensures Substitute(Substitute(t, map[k := v]), env) == Substitute(t, env[k := v])
  {
  }

  /** The text leaves the key alone, or the key is replaced by its own placeholder. */
  predicate Leaves(text: string, e: Entry) {
    e.value == Token(e.key) || Closed(text, Token(e.key))
  }

  /** No text of the template can take part in a placeholder of these keys. */
  ghost predicate Ready(t: seq<Piece>, entries: seq<Entry>) {
    && (forall i :: 0 <= i < |t| && t[i].Var? ==> IsWord(t[i].key))
    && forall i, j :: 0 <= i < |t| && t[i].Text? && 0 <= j < |entries| ==> Leaves(t[i].text, entries[j])
  }

  /** No value can take part in a placeholder of a key that comes later. */
  ghost predicate ValuesReady(entries: seq<Entry>) {
    forall i, j :: 0 <= i < j < |entries| ==> Leaves(entries[i].value, entries[j])
  }

  lemma {:induction false} SpliceBySelf(s: string, p: string)
    requires p != ""
    ensures Splice(s, p, p) == s
    decreases |s|
  {
    if s != "" {
      if p <= s {
        assert s == p + s[|p|..];
        SpliceBySelf(s[|p|..], p);
      } else {
        assert s == [s[0]] + s[1..];
        SpliceBySelf(s[1..], p);
      }
    }
  }

  lemma {:induction false} SubstituteBySelf(t: seq<Piece>, k: string)
    ensures Render(Substitute(t, map[k := Token(k)])) == Render(t)
  {
    if t != [] {
      SubstituteBySelf(t[1..], k);
      assert Substitute(t, map[k := Token(k)])[1..] == Substitute(t[1..], map[k := Token(k)]);
    }
  }

  lemma ReplaceOneKey(t: seq<Piece>, e: Entry)
    requires Ready(t, [e]) && IsWord(e.key) && Inert(e.value)
    ensures ReplaceAll(Render(t), Token(e.key), e.value) == Render(Substitute(t, map[e.key := e.value]))
  {
    InertReplaceAll(Render(t), Token(e.key), e.value);
    if e.value == Token(e.key) {
      SpliceBySelf(Render(t), e.value);
      SubstituteBySelf(t, e.key);
    } else {
      assert forall i :: 0 <= i < |t| && t[i].Text? ==> Leaves(t[i].text, [e][0]);
      SpliceIsSubstitution(t, e.key, e.value);
    }
  }

  lemma ReadyAfter(t: seq<Piece>, entries: seq<Entry>)
    requires entries != [] && Ready(t, entries) && ValuesReady(entries)
    ensures Ready(t, [entries[0]]) && ValuesReady(entries[1..])
    ensures Ready(Substitute(t, map[entries[0].key := entries[0].value]), entries[1..])
  {
    var rest, next := entries[1..], Substitute(t, map[entries[0].key := entries[0].value]);
    assert forall j :: 0 <= j < |rest| ==> rest[j] == entries[j + 1];
    forall i, j | 0 <= i < |next| && next[i].Text? && 0 <= j < |rest|
      ensures Leaves(next[i].text, rest[j])
    {
      assert Leaves(if t[i].Text? then t[i].text else entries[0].value, entries[j + 1]);
    }
  }

  /** MAIN RESULT. Replacing the placeholders one key at a time in the string is substituting all of them at once
      in the template: declared placeholders become their values, everything else is unchanged. */
  lemma {:induction false} ReplaceKeysIsSubstitution(t: seq<Piece>, entries: seq<Entry>)
    requires Ready(t, entries) && Plain(entries) && DistinctKeys(entries) && ValuesReady(entries)
    ensures ReplaceKeys(Render(t), entries) == Render(Substitute(t, Env(entries)))
    decreases |entries|
  {
    if entries == [] {
      assert Substitute(t, map[]) == t;
    } else {
      var Entry(k, v) := entries[0];
      ReadyAfter(t, entries);
      ReplaceOneKey(t, entries[0]);
      ReplaceKeysIsSubstitution(Substitute(t, map[k := v]), entries[1..]);
      FirstKeyIsNew(entries);
      SubstituteTwice(t, k, v, Env(entries[1..]));
    }
  }

  ghost predicate Contains(s: string, p: string) {
    exists i :: 0 <= i <= |s| && p <= s[i..]
  }

  lemma ContainsInTail(s: string, p: string)
    requires p != "" && s != "" && !(p <= s)
    ensures Contains(s, p) <==> Contains(s[1..], p)
  {
    assert s[0..] == s;
    assert forall i :: 0 < i <= |s| ==> s[1..][i - 1..] == s[i..];
    assert forall i :: 0 <= i <= |s[1..]| ==> s[1..][i..] == s[i + 1..];
    if i :| 0 <= i <= |s| && p <= s[i..] {
      assert p <= s[1..][i - 1..];
    }
  }

  lemma {:induction false} LongerSpliceGrows(s: string, p: string, v: string)
    requires p != "" && |p| < |v|
    ensures |s| <= |Splice(s, p, v)|
    ensures Contains(s, p) ==> |s| < |Splice(s, p, v)|
    decreases |s|
  {
    if s != "" {
      if p <= s {
        LongerSpliceGrows(s[|p|..], p, v);
      } else {
        LongerSpliceGrows(s[1..], p, v);
        ContainsInTail(s, p);
      }
    }
  }

  /** A declared placeholder is not left in the command when no text and no value can take part in one. */
  lemma DeclaredPlaceholdersVanish(t: seq<Piece>, entries: seq<Entry>, k: string)
    requires Ready(t, entries) && Plain(entries) && DistinctKeys(entries) && ValuesReady(entries)
    requires k in Env(entries) && IsWord(k) && ClosedFor(t, k)
    requires forall j :: 0 <= j < |entries| ==> Closed(entries[j].value, Token(k))
    ensures !Contains(ReplaceKeys(Render(t), entries), Token(k))
  {
    ReplaceKeysIsSubstitution(t, entries);
    var t' := Substitute(t, Env(entries));
    forall i | 0 <= i < |t| && t[i].Var? && t[i].key in Env(entries)
      ensures Closed(t'[i].text, Token(k))
    {
      EnvValue(entries, t[i].key);
    }
    var long := Token(k) + "x";
    SpliceIsSubstitution(t', k, long);
    assert Substitute(t', map[k := long]) == t';
    LongerSpliceGrows(Render(t'), Token(k), long);
  }

  lemma SpliceWhole(p: string, v: string)
    requires p != ""
    ensures Splice(p, p, v) == v
  {
    assert p[|p|..] == "";
  }

  // ------------------------------------------------------------------------------------------------
  // When does the order of the keys show?

  /** The environment listed in some order: an object does not say in which order its keys come. */
  ghost predicate IsOrder(order: seq<Entry>, env: map<string, string>) {
    DistinctKeys(order) && Env(order) == env
  }

  predicate Admissible(env: map<string, string>) {
    forall k :: k in env ==> IsWord(k) && Inert(env[k])
  }

  /** No value can take part in a placeholder of another key, unless that key is replaced by itself. */
  ghost predicate Apart(env: map<string, string>) {
    forall a, b :: a in env && b in env && a != b ==> Leaves(env[a], Entry(b, env[b]))
  }

  ghost predicate AlwaysSubstitutes(env: map<string, string>) {
    forall t, order :: WellFormed(t) && IsOrder(order, env) ==>
      ReplaceKeys(Render(t), order) == Render(Substitute(t, env))
  }

  ghost predicate OrderNeverShows(env: map<string, string>) {
    forall t, order, order' :: WellFormed(t) && IsOrder(order, env) && IsOrder(order', env) ==>
      ReplaceKeys(Render(t), order) == ReplaceKeys(Render(t), order')
  }

  lemma {:induction false} EntryInEnv(order: seq<Entry>, i: nat)
    requires DistinctKeys(order) && i < |order|
    ensures order[i].key in Env(order) && Env(order)[order[i].key] == order[i].value
  {
    if i > 0 {
      assert order[1..][i - 1] == order[i];
      EntryInEnv(order[1..], i - 1);
    }
  }

  lemma ApartSubstitutes(t: seq<Piece>, order: seq<Entry>, env: map<string, string>)
    requires Admissible(env) && Apart(env) && WellFormed(t) && IsOrder(order, env)
    ensures ReplaceKeys(Render(t), order) == Render(Substitute(t, env))
  {
    forall i | 0 <= i < |order|
      ensures order[i].key in env && env[order[i].key] == order[i].value
    {
      EntryInEnv(order, i);
    }
    forall i, j | 0 <= i < |t| && t[i].Text? && 0 <= j < |order|
      ensures Leaves(t[i].text, order[j])
    {
      HarmlessIsClosed(t[i].text, order[j].key);
    }
    forall i, j | 0 <= i < j < |order|
      ensures Leaves(order[i].value, order[j])
    {
      assert order[j] == Entry(order[j].key, env[order[j].key]);
    }
    ReplaceKeysIsSubstitution(t, order);
  }

  lemma {:induction false} EnvConcat(xs: seq<Entry>, ys: seq<Entry>)
    ensures Env(xs + ys) == Env(ys) + Env(xs)
  {
    if xs == [] {
      assert xs + ys == ys;
    } else {
      assert (xs + ys)[0] == xs[0] && (xs + ys)[1..] == xs[1..] + ys;
      EnvConcat(xs[1..], ys);
    }
  }

  lemma {:induction false} Enumerate(env: map<string, string>) returns (order: seq<Entry>)
    ensures IsOrder(order, env)
    decreases |env|
  {
    if env == map[] {
      order := [];
    } else {
      var k :| k in env;
      var rest := Enumerate(env - {k});
      order := [Entry(k, env[k])] + rest;
      forall j | 0 <= j < |rest| ensures rest[j].key != k { EntryInEnv(rest, j); }
      assert order[1..] == rest;
    }
  }

  /** An order that ends in two given keys. */
  lemma EndingIn(env: map<string, string>, others: seq<Entry>, a: string, b: string)
    requires a in env && b in env && a != b && IsOrder(others, env - {a, b})
    ensures IsOrder(others + [Entry(a, env[a]), Entry(b, env[b])], env)
  {
    var two := [Entry(a, env[a]), Entry(b, env[b])];
    EnvConcat(others, two);
    assert two[1..] == [two[1]] && [two[1]][1..] == [];
    assert Env([two[1]]) == map[b := env[b]];
    forall j | 0 <= j < |others| ensures others[j].key != a && others[j].key != b { EntryInEnv(others, j); }
  }

  lemma {:induction false} ReplaceKeysConcat(s: string, xs: seq<Entry>, ys: seq<Entry>)
    ensures ReplaceKeys(s, xs + ys) == ReplaceKeys(ReplaceKeys(s, xs), ys)
    decreases |xs|
  {
    if xs == [] {
      assert xs + ys == ys;
    } else {
      assert (xs + ys)[0] == xs[0] && (xs + ys)[1..] == xs[1..] + ys;
      ReplaceKeysConcat(ReplaceAll(s, Token(xs[0].key), xs[0].value), xs[1..], ys);
    }
  }

  /** Keys that the template does not use change nothing. */
  lemma {:induction false} OthersChangeNothing(t: seq<Piece>, others: seq<Entry>)
    requires WellFormed(t) && Plain(others)
    requires forall i, j :: 0 <= i < |t| && t[i].Var? && 0 <= j < |others| ==> t[i].key != others[j].key
    ensures ReplaceKeys(Render(t), others) == Render(t)
    decreases |others|
  {
    if others != [] {
      var Entry(k, v) := others[0];
      WellFormedIsClosed(t, k);
      InertReplaceAll(Render(t), Token(k), v);
      SpliceIsSubstitution(t, k, v);
      assert Substitute(t, map[k := v]) == t;
      OthersChangeNothing(t, others[1..]);
    }
  }

  lemma {:induction false} SpliceChanges(s: string, p: string, v: string)
    requires p != "" && v != p && Contains(s, p)
    ensures Splice(s, p, v) != s
    decreases |s|
  {
    assert s != "";
    if |p| < |v| {
      LongerSpliceGrows(s, p, v);
    } else if |v| < |p| {
      ShorterSpliceShrinks(s, p, v);
    } else if p <= s {
      assert Splice(s, p, v)[..|p|] == v && s[..|p|] == p;
    } else {
      ContainsInTail(s, p);
      SpliceChanges(s[1..], p, v);
      assert Splice(s, p, v)[1..] == Splice(s[1..], p, v);
    }
  }

  lemma {:induction false} ShorterSpliceShrinks(s: string, p: string, v: string)
    requires |v| < |p|
    ensures |Splice(s, p, v)| <= |s|
    ensures Contains(s, p) ==> |Splice(s, p, v)| < |s|
    decreases |s|
  {
    if s != "" {
      if p <= s {
        ShorterSpliceShrinks(s[|p|..], p, v);
      } else {
        ShorterSpliceShrinks(s[1..], p, v);
        ContainsInTail(s, p);
      }
    }
  }

  /** The text that completes a value, from x on, to the placeholder it meets. */
  function Completion(v: string, x: nat, p: string): string
    requires x < |v|
  {
    if p <= v[x..] || |p| < |v| - x then "" else p[|v| - x..]
  }

  lemma BraceOpensToken(k: string, at: nat)
    requires IsWord(k) && at < |Token(k)|
    ensures Token(k)[at] == '{' ==> at <= 1
  {
    if 2 <= at < 2 + |k| {
      assert Token(k)[at] == k[at - 2];
    }
  }

  lemma CompletionCompletes(v: string, x: nat, k: string)
    requires x < |v| && Meets(v[x..], Token(k)) && IsWord(k)
    ensures Contains(v + Completion(v, x, Token(k)), Token(k)) && Harmless(Completion(v, x, Token(k)))
  {
    var p, rest := Token(k), Completion(v, x, Token(k));
    assert (v + rest)[x..] == v[x..] + rest;
    assert p <= (v + rest)[x..];
    forall i | 0 <= i < |rest| && rest[i] == '{'
      ensures i + 1 < |rest| && rest[i + 1] != '{'
    {
      var at := |v| - x + i;
      BraceOpensToken(k, at);
      assert p[2] == if k == "" then '}' else k[0];
    }
  }

  /** The template {{a}}rest, where rest completes the value of a to the placeholder of b: with a before b the
      placeholder appears and is replaced, with b before a it stays. */
  lemma OrderShows(env: map<string, string>, a: string, b: string)
    returns (t: seq<Piece>, order: seq<Entry>, order': seq<Entry>)
    requires Admissible(env) && a in env && b in env && a != b && !Leaves(env[a], Entry(b, env[b]))
    ensures WellFormed(t) && IsOrder(order, env) && IsOrder(order', env)
    ensures ReplaceKeys(Render(t), order) != ReplaceKeys(Render(t), order')
  {
    var x :| 0 <= x < |env[a]| && Meets(env[a][x..], Token(b));
    var rest := Completion(env[a], x, Token(b));
    CompletionCompletes(env[a], x, b);
    var others := Enumerate(env - {a, b});
    var ea, eb := Entry(a, env[a]), Entry(b, env[b]);
    EndingIn(env, others, a, b);
    assert env - {b, a} == env - {a, b};
    EndingIn(env, others, b, a);
    t, order, order' := [Var(a), Text(rest)], others + [ea, eb], others + [eb, ea];
    forall j | 0 <= j < |others|
      ensures IsWord(others[j].key) && Inert(others[j].value) && others[j].key != a
    {
      EntryInEnv(others, j);
    }
    OthersChangeNothing(t, others);
    ReplaceKeysConcat(Render(t), others, [ea, eb]);
    ReplaceKeysConcat(Render(t), others, [eb, ea]);
    LastTwo(t, rest, ea, eb);
  }

  lemma LastTwo(t: seq<Piece>, rest: string, a: Entry, b: Entry)
    requires t == [Var(a.key), Text(rest)] && Harmless(rest) && a.key != b.key && b.value != Token(b.key)
    requires IsWord(a.key) && IsWord(b.key) && Inert(a.value) && Inert(b.value)
    requires Contains(a.value + rest, Token(b.key))
    ensures ReplaceKeys(Render(t), [a, b]) != ReplaceKeys(Render(t), [b, a])
  {
    TwoKeys(Render(t), a, b);
    TwoKeys(Render(t), b, a);
    OthersChangeNothing(t, [b]);
    assert ReplaceKeys(Render(t), [b]) == ReplaceKeys(ReplaceAll(Render(t), Token(b.key), b.value), [b][1..]);
    WellFormedIsClosed(t, a.key);
    InertReplaceAll(Render(t), Token(a.key), a.value);
    SpliceIsSubstitution(t, a.key, a.value);
    assert Substitute(t, map[a.key := a.value]) == [Text(a.value), Text(rest)];
    assert [Text(a.value), Text(rest)][1..] == [Text(rest)] && [Text(rest)][1..] == [];
    assert Render([Text(rest)]) == rest;
    assert Render([Text(a.value), Text(rest)]) == a.value + rest;
    InertReplaceAll(a.value + rest, Token(b.key), b.value);
    SpliceChanges(a.value + rest, Token(b.key), b.value);
  }

  /** MAIN RESULT. For word keys and values without `$` patterns, the following are the same: in every template and
      every order of the keys the loop is simultaneous substitution; no template shows the order of the keys; no value
      can take part in a placeholder of another key (which is not replaced by itself). */
  lemma KeyOrderIsIrrelevantIff(env: map<string, string>)
    requires Admissible(env)
    ensures AlwaysSubstitutes(env) <==> Apart(env)
    ensures OrderNeverShows(env) <==> Apart(env)
  {
    if Apart(env) {
      forall t, order | WellFormed(t) && IsOrder(order, env)
        ensures ReplaceKeys(Render(t), order) == Render(Substitute(t, env))
      {
        ApartSubstitutes(t, order, env);
      }
    } else {
      var a, b :| a in env && b in env && a != b && !Leaves(env[a], Entry(b, env[b]));
      var t, order, order' := OrderShows(env, a, b);
    }
  }

  /** No declared placeholder is left, whatever the template and the order. */
  ghost predicate PlaceholdersVanish(env: map<string, string>) {
    forall t, order, k :: WellFormed(t) && IsOrder(order, env) && k in env ==>
      !Contains(ReplaceKeys(Render(t), order), Token(k))
  }

  /** No value can take part in the placeholder of any key, its own included. */
  ghost predicate AllClosed(env: map<string, string>) {
    forall a, b :: a in env && b in env ==> Closed(env[a], Token(b))
  }

  lemma ClosedValuesVanish(t: seq<Piece>, order: seq<Entry>, env: map<string, string>, k: string)
    requires Admissible(env) && AllClosed(env) && WellFormed(t) && IsOrder(order, env) && k in env
    ensures !Contains(ReplaceKeys(Render(t), order), Token(k))
  {
    forall i | 0 <= i < |order|
      ensures order[i].key in env && env[order[i].key] == order[i].value
    {
      EntryInEnv(order, i);
    }
    forall i, j | 0 <= i < |t| && t[i].Text? && 0 <= j < |order|
      ensures Leaves(t[i].text, order[j])
    {
      HarmlessIsClosed(t[i].text, order[j].key);
    }
    WellFormedIsClosed(t, k);
    DeclaredPlaceholdersVanish(t, order, k);
  }

  /** An order that ends in a given key. */
  lemma EndingInOne(env: map<string, string>, others: seq<Entry>, a: string)
    requires a in env && IsOrder(others, env - {a})
    ensures IsOrder(others + [Entry(a, env[a])], env)
  {
    var last := [Entry(a, env[a])];
    EnvConcat(others, last);
    assert last[1..] == [] && Env(last) == map[a := env[a]];
    forall j | 0 <= j < |others| ensures others[j].key != a { EntryInEnv(others, j); }
  }

  /** The template {{a}}rest with a replaced last, where rest completes the value of a to the placeholder of b. */
  lemma PlaceholderStays(env: map<string, string>, a: string, b: string)
    requires Admissible(env) && a in env && b in env && !Closed(env[a], Token(b))
    ensures !PlaceholdersVanish(env)
  {
    var x :| 0 <= x < |env[a]| && Meets(env[a][x..], Token(b));
    var rest := Completion(env[a], x, Token(b));
    CompletionCompletes(env[a], x, b);
    var others := Enumerate(env - {a});
    EndingInOne(env, others, a);
    var t := [Var(a), Text(rest)];
    forall j | 0 <= j < |others|
      ensures IsWord(others[j].key) && Inert(others[j].value) && others[j].key != a
    {
      EntryInEnv(others, j);
    }
    OthersChangeNothing(t, others);
    ReplaceKeysConcat(Render(t), others, [Entry(a, env[a])]);
    LastOne(t, rest, Entry(a, env[a]));
    assert WellFormed(t) && IsOrder(others + [Entry(a, env[a])], env);
  }

  lemma LastOne(t: seq<Piece>, rest: string, a: Entry)
    requires t == [Var(a.key), Text(rest)] && Harmless(rest) && IsWord(a.key) && Inert(a.value)
    ensures ReplaceKeys(Render(t), [a]) == a.value + rest
  {
    WellFormedIsClosed(t, a.key);
    InertReplaceAll(Render(t), Token(a.key), a.value);
    SpliceIsSubstitution(t, a.key, a.value);
    assert Substitute(t, map[a.key := a.value]) == [Text(a.value), Text(rest)];
    assert [Text(a.value), Text(rest)][1..] == [Text(rest)] && [Text(rest)][1..] == [];
    assert Render([Text(rest)]) == rest;
    assert Render([Text(a.value), Text(rest)]) == a.value + rest;
    assert [a][1..] == [];
  }

  /** MAIN RESULT. For word keys and values without `$` patterns, no declared placeholder is left in any template and
      any order exactly when no value can take part in a declared placeholder. */
  lemma PlaceholdersVanishIff(env: map<string, string>)
    requires Admissible(env)
    ensures PlaceholdersVanish(env) <==> AllClosed(env)
  {
    if AllClosed(env) {
      forall t, order, k | WellFormed(t) && IsOrder(order, env) && k in env
        ensures !Contains(ReplaceKeys(Render(t), order), Token(k))
      {
        ClosedValuesVanish(t, order, env, k);
      }
    } else {
      var a, b :| a in env && b in env && !Closed(env[a], Token(b));
      PlaceholderStays(env, a, b);
    }
  }

  /** Values in which every brace is followed by something else than a brace are always apart. */
  lemma HarmlessValuesAreApart(env: map<string, string>)
    requires forall k :: k in env ==> Harmless(env[k])
    ensures Apart(env)
  {
    forall a, b | a in env && b in env && a != b
      ensures Leaves(env[a], Entry(b, env[b]))
    {
      HarmlessIsClosed(env[a], b);
    }
  }

  lemma {:induction false} SpliceAbsent(s: string, p: string, v: string)
    requires p != "" && !Contains(s, p)
    ensures Splice(s, p, v) == s
    decreases |s|
  {
    if s != "" {
      assert s[0..] == s;
      ContainsInTail(s, p);
      SpliceAbsent(s[1..], p, v);
    }
  }

  /** Two keys on the placeholder of the first: the orders agree exactly when its value does not spell the placeholder
      of the second. */
  lemma TwoOrdersAgreeIff(a: Entry, b: Entry)
    requires IsWord(a.key) && IsWord(b.key) && a.key != b.key && Inert(a.value) && Inert(b.value)
    requires b.value != Token(b.key)
    ensures ReplaceKeys(Token(a.key), [a, b]) == ReplaceKeys(Token(a.key), [b, a])
      <==> !Contains(a.value, Token(b.key))
  {
    TwoKeys(Token(a.key), a, b);
    TwoKeys(Token(a.key), b, a);
    ReplaceOwnToken(a.key, a.value);
    ReplaceOtherToken(b.key, a.key, b.value);
    InertReplaceAll(a.value, Token(b.key), b.value);
    if Contains(a.value, Token(b.key)) {
      SpliceChanges(a.value, Token(b.key), b.value);
    } else {
      SpliceAbsent(a.value, Token(b.key), b.value);
    }
  }

  /** When a value spells a placeholder, the order of the keys shows. */
  lemma NestedValueBreaksOrder()
    ensures var a, b := Entry("A", Token("B")), Entry("B", "x");
      ReplaceKeys(Token("A"), [a, b]) == "x" && ReplaceKeys(Token("A"), [b, a]) == Token("B")
  {
    NestedValue(Entry("A", Token("B")), Entry("B", "x"));
  }

  lemma NestedValue(a: Entry, b: Entry)
    requires IsWord(a.key) && IsWord(b.key) && a.key != b.key && Inert(a.value) && Inert(b.value)
    requires a.value == Token(b.key)
    ensures ReplaceKeys(Token(a.key), [a, b]) == b.value && ReplaceKeys(Token(a.key), [b, a]) == a.value
  {
    TwoKeys(Token(a.key), a, b);
    TwoKeys(Token(a.key), b, a);
    ReplaceOwnToken(a.key, a.value);
    ReplaceOwnToken(b.key, b.value);
    ReplaceOtherToken(b.key, a.key, b.value);
  }

  lemma ReplaceOwnToken(k: string, v: string)
    requires Inert(v)
    ensures ReplaceAll(Token(k), Token(k), v) == v
  {
    InertReplaceAll(Token(k), Token(k), v);
    SpliceWhole(Token(k), v);
  }

  lemma ReplaceOtherToken(k: string, k': string, v: string)
    requires IsWord(k) && IsWord(k') && k != k' && Inert(v)
    ensures ReplaceAll(Token(k'), Token(k), v) == Token(k')
  {
    InertReplaceAll(Token(k'), Token(k), v);
    SpliceSkipsToken(k, k', "", v);
    assert Token(k') + "" == Token(k');
  }

  lemma TwoKeys(s: string, a: Entry, b: Entry)
    ensures ReplaceKeys(s, [a, b]) == ReplaceAll(ReplaceAll(s, Token(a.key), a.value), Token(b.key), b.value)
  {
    assert [a, b][1..] == [b] && [b][1..] == [];
    var s' := ReplaceAll(s, Token(a.key), a.value);
    assert ReplaceKeys(s', [b]) == ReplaceKeys(ReplaceAll(s', Token(b.key), b.value), []);
  }

  // ------------------------------------------------------------------------------------------------
  // str::split_whitespace in Wings.

  lemma StraddleHitsSpace(w: string, r: string, p: string)
    ensures p <= w + r && |w| < |p| ==> r != "" && p[|w|] == r[0]
  {
    assert |w| < |w + r| ==> (w + r)[|w|] == r[0];
  }

  /** A pattern without spaces does not match across the end of a word. */
  lemma NoStraddle(w: string, r: string, p: string)
    requires Breaks(r) && NoSpace(p)
    ensures p <= w + r <==> p <= w
  {
    StraddleHitsSpace(w, r, p);
    assert (w + r)[..|w|] == w;
  }

  lemma {:induction false} SpliceSplits(w: string, r: string, p: string, v: string)
    requires Breaks(r) && p != "" && NoSpace(p)
    ensures Splice(w + r, p, v) == Splice(w, p, v) + Splice(r, p, v)
    decreases |w|
  {
    NoStraddle(w, r, p);
    if w == "" {
      assert w + r == r;
    } else if p <= w {
      var rest := w[|p|..];
      assert (w + r)[|p|..] == rest + r;
      SpliceSplits(rest, r, p, v);
      assert v + (Splice(rest, p, v) + Splice(r, p, v)) == (v + Splice(rest, p, v)) + Splice(r, p, v);
    } else {
      assert (w + r)[0] == w[0] && (w + r)[1..] == w[1..] + r;
      SpliceSplits(w[1..], r, p, v);
    }
  }

  lemma {:induction false} SpliceKeepsWord(w: string, p: string, v: string)
    requires NoSpace(w) && p != "" && v != "" && NoSpace(v)
    ensures NoSpace(Splice(w, p, v)) && (w != "" ==> Splice(w, p, v) != "")
    decreases |w|
  {
    if w != "" {
      SpliceKeepsWord(if p <= w then w[|p|..] else w[1..], p, v);
    }
  }

  lemma SpliceKeepsBreak(r: string, p: string, v: string)
    requires Breaks(r) && p != "" && NoSpace(p)
    ensures Breaks(Splice(r, p, v))
    ensures r != "" ==> Splice(r, p, v) == [r[0]] + Splice(r[1..], p, v)
  {
    PrefixHead(p, r);
  }

  function SpliceEach(words: seq<string>, p: string, v: string): seq<string>
    requires p != ""
  {
    seq(|words|, i requires 0 <= i < |words| => Splice(words[i], p, v))
  }

  lemma SpaceIsDropped(s: string, p: string, v: string)
    requires s != "" && IsSpace(s[0]) && p != "" && NoSpace(p)
    ensures Words(Splice(s, p, v)) == Words(Splice(s[1..], p, v))
  {
    SpliceKeepsBreak(s, p, v);
    assert ([s[0]] + Splice(s[1..], p, v))[1..] == Splice(s[1..], p, v);
  }

  lemma FirstWordIsSpliced(w: string, r: string, p: string, v: string)
    requires w != "" && NoSpace(w) && Breaks(r) && p != "" && NoSpace(p) && v != "" && NoSpace(v)
    ensures Words(Splice(w + r, p, v)) == [Splice(w, p, v)] + Words(Splice(r, p, v))
  {
    SpliceSplits(w, r, p, v);
    SpliceKeepsWord(w, p, v);
    SpliceKeepsBreak(r, p, v);
    WordsOf(Splice(w, p, v), Splice(r, p, v));
  }

  lemma SpliceEachCons(w: string, words: seq<string>, p: string, v: string)
    requires p != ""
    ensures SpliceEach([w] + words, p, v) == [Splice(w, p, v)] + SpliceEach(words, p, v)
  {
  }

  /** One key: splitting after replacing is replacing in every argument. Holds for every string, not only for
      rendered templates. */
  lemma {:induction false} SplitThenSplice(s: string, p: string, v: string)
    requires p != "" && NoSpace(p) && v != "" && NoSpace(v)
    ensures Words(Splice(s, p, v)) == SpliceEach(Words(s), p, v)
    decreases |s|
  {
    if s == "" {
    } else if IsSpace(s[0]) {
      SpaceIsDropped(s, p, v);
      SplitThenSplice(s[1..], p, v);
    } else {
      var n := WordLength(s);
      var w, r := s[..n], s[n..];
      assert s == w + r && w != "";
      FirstWordIsSpliced(w, r, p, v);
      SplitThenSplice(r, p, v);
      SpliceEachCons(w, Words(r), p, v);
    }
  }

  predicate SingleWords(entries: seq<Entry>) {
    forall i :: 0 <= i < |entries| ==>
      && IsWord(entries[i].key) && Inert(entries[i].value)
      && entries[i].value != "" && NoSpace(entries[i].value)
  }

  function ReplaceEach(words: seq<string>, entries: seq<Entry>): seq<string> {
    seq(|words|, i requires 0 <= i < |words| => ReplaceKeys(words[i], entries))
  }

  lemma TokenHasNoSpace(k: string)
    requires IsWord(k)
    ensures NoSpace(Token(k))
  {
    forall i | 0 <= i < |Token(k)| ensures !IsSpace(Token(k)[i]) {
      if 2 <= i < 2 + |k| { assert Token(k)[i] == k[i - 2]; }
    }
  }

  /** MAIN RESULT. For values that are single words, the argument list Wings gets by splitting the finished command
      is the argument list of the template with the values put into each argument: a value never splits, joins or
      drops an argument. */
  lemma {:induction false} ArgumentsAreStable(s: string, entries: seq<Entry>)
    requires SingleWords(entries)
    ensures Words(ReplaceKeys(s, entries)) == ReplaceEach(Words(s), entries)
    decreases |entries|
  {
    if entries == [] {
      assert ReplaceEach(Words(s), []) == Words(s);
    } else {
      var p, v := Token(entries[0].key), entries[0].value;
      TokenHasNoSpace(entries[0].key);
      InertReplaceAll(s, p, v);
      SplitThenSplice(s, p, v);
      ArgumentsAreStable(ReplaceAll(s, p, v), entries[1..]);
      forall i | 0 <= i < |Words(s)|
        ensures ReplaceKeys(Words(s)[i], entries) == ReplaceKeys(SpliceEach(Words(s), p, v)[i], entries[1..])
      {
        InertReplaceAll(Words(s)[i], p, v);
      }
    }
  }
}
