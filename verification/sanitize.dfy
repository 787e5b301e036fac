/** `middleware/sanitize.js`: the request-body fields `question`, `concept`,
    `name` and `email` are cleaned when truthy; everything else passes through.

    The two regular expressions are modelled by what they match:
    - `/<script[^>]*>.*?<\/script>/gi`: "<script" in any letter case, up to the first
      `>`, then the shortest run of non-line-terminator characters up to "</script>"
      in any letter case;
    - `/<[^>]+>/g`: a `<`, at least one character other than `>`, and the first `>`.
    A global replacement scans left to right and resumes after each removed match. */
module Sanitize {
  import opened Common

  const QuestionLimit: nat := 1000
  const ConceptLimit: nat := 500
  const NameLimit: nat := 100
  const EmailLimit: nat := 100

  /** The characters regex `.` does not match. */
  predicate LineTerminator(c: char) {
    c == '\n' || c == '\r' || c == '\U{2028}' || c == '\U{2029}'
  }

  // ---------------------------------------------------------------------------
  // Tags: /<[^>]+>/g

  /** The end of the tag that starts `s`, if one does. */
  function TagEnd(s: string): (e: Option<nat>)
    ensures e.Some? <==> |s| >= 2 && s[0] == '<' && s[1] != '>' && '>' in s
    ensures e.Some? ==> 2 < e.value <= |s| && s[e.value - 1] == '>' && '>' !in s[..e.value - 1]
  {
    if |s| >= 2 && s[0] == '<' && s[1] != '>' then
      match IndexOf(s, '>')
      case None => None
      case Some(k) => Some(k + 1)
    else None
  }

  /** No tag starts at any position: every `<` is directly followed by `>` or has no `>` after it. */
  predicate NoTag(s: string) {
    forall i :: 0 <= i < |s| && s[i] == '<' ==> (i + 1 < |s| && s[i + 1] == '>') || '>' !in s[i + 1..]
  }

  /** `.replace(/<[^>]+>/g, '')` */
  function StripTags(s: string): (r: string)
    ensures |r| <= |s|
    ensures forall c :: c in r ==> c in s
    ensures s != [] && s[0] != '<' ==> r != [] && r[0] == s[0]
    ensures NoTag(r)
    decreases |s|
  {
    if s == [] then []
    else match TagEnd(s)
      case Some(e) => StripTags(s[e..])
      case None =>
        var rest := StripTags(s[1..]);
        var r := [s[0]] + rest;
        assert forall i :: 1 <= i < |r| ==> r[i] == rest[i - 1];
        assert r[1..] == rest;
        assert forall i :: 1 <= i < |r| && r[i] == '<' ==>
                 (i + 1 < |r| && r[i + 1] == '>') || '>' !in r[i + 1..] by {
          forall i | 1 <= i < |r| && r[i] == '<'
            ensures (i + 1 < |r| && r[i + 1] == '>') || '>' !in r[i + 1..]
          {
            assert rest[i - 1] == '<';
            assert r[i + 1..] == rest[i..];
          }
        }
        assert NoTag(r) by {
          if s[0] == '<' {
            if |s| >= 2 && s[1] == '>' {
              assert rest != [] && rest[0] == '>';
            } else {
              assert '>' !in s[1..];
              assert '>' !in rest;
            }
          }
        }
        r
  }

  /** A text without tags is left alone. */
  lemma {:induction false} StripTagsKeepsTagFree(s: string)
    requires NoTag(s)
    ensures StripTags(s) == s
    decreases |s|
  {
    if s != [] {
      assert TagEnd(s).None? by {
        if |s| >= 2 && s[0] == '<' && s[1] != '>' {
          assert '>' !in s[1..];
          assert s == [s[0]] + s[1..];
        }
      }
      var t := s[1..];
      assert NoTag(t) by {
        forall i | 0 <= i < |t| && t[i] == '<'
          ensures (i + 1 < |t| && t[i + 1] == '>') || '>' !in t[i + 1..]
        {
          assert s[i + 1] == '<';
          assert t[i + 1..] == s[i + 2..];
        }
      }
      StripTagsKeepsTagFree(t);
      assert s == [s[0]] + t;
    }
  }

  /** Removing tags twice is removing them once. */
  lemma StripTagsIdempotent(s: string)
    ensures StripTags(StripTags(s)) == StripTags(s)
  {
    StripTagsKeepsTagFree(StripTags(s));
  }

  /** Where no tag starts, the first character is kept. */
  lemma StripTagsStep(s: string)
    requires s != [] && TagEnd(s).None?
    ensures StripTags(s) == [s[0]] + StripTags(s[1..])
  {
  }

  /** Text before the first `<` is copied as it is. */
  lemma {:induction false} StripTagsPlain(p: string, q: string)
    requires '<' !in p
    ensures StripTags(p + q) == p + StripTags(q)
    decreases |p|
  {
    if p != [] {
      var s := p + q;
      assert s[0] == p[0] && TagEnd(s).None?;
      StripTagsStep(s);
      assert s[1..] == p[1..] + q;
      StripTagsPlain(p[1..], q);
      assert p == [p[0]] + p[1..];
    } else {
      assert p + q == q;
    }
  }

  /** A tag `t` after plain text `p` is removed, and the scan resumes right after it. */
  lemma StripTagsRemovesTag(p: string, t: string, q: string)
    requires '<' !in p && TagEnd(t) == Some(|t|)
    ensures StripTags(p + t + q) == p + StripTags(q)
  {
    var s := t + q;
    assert s[..|t| - 1] == t[..|t| - 1];
    assert s[0] == t[0] && s[1] == t[1] && s[|t| - 1] == '>';
    assert TagEnd(s) == Some(|t|);
    assert s[|t|..] == q;
    assert p + t + q == p + s;
    StripTagsPlain(p, s);
  }

  /** A `<` that opens no tag (no `>` follows, or `>` follows at once) is kept. */
  lemma StripTagsKeepsStrayBracket(p: string, q: string)
    requires '<' !in p && q != [] && q[0] == '<' && TagEnd(q).None?
    ensures StripTags(p + q) == p + ['<'] + StripTags(q[1..])
  {
    StripTagsPlain(p, q);
    assert StripTags(q) == [q[0]] + StripTags(q[1..]);
  }

  // ---------------------------------------------------------------------------
  // Script blocks: /<script[^>]*>.*?<\/script>/gi

  /** "<script" in any letter case at the start of `s`. */
  predicate OpensScript(s: string) {
    && |s| >= 7 && s[0] == '<'
    && LowerChar(s[1]) == 's' && LowerChar(s[2]) == 'c' && LowerChar(s[3]) == 'r'
    && LowerChar(s[4]) == 'i' && LowerChar(s[5]) == 'p' && LowerChar(s[6]) == 't'
  }

  /** "</script>" in any letter case at position `p`. */
  predicate ClosesScriptAt(s: string, p: int) {
    && 0 <= p && p + 9 <= |s| && s[p] == '<' && s[p + 1] == '/'
    && LowerChar(s[p + 2]) == 's' && LowerChar(s[p + 3]) == 'c' && LowerChar(s[p + 4]) == 'r'
    && LowerChar(s[p + 5]) == 'i' && LowerChar(s[p + 6]) == 'p' && LowerChar(s[p + 7]) == 't'
    && s[p + 8] == '>'
  }

  /** Comparing the lower-cased text with a pattern is comparing character by character. */
  lemma LoweredEquals(w: string, lit: string)
    ensures ToLower(w) == lit <==> |w| == |lit| && forall i :: 0 <= i < |w| ==> LowerChar(w[i]) == lit[i]
  {
    var l := ToLower(w);
    assert forall i :: 0 <= i < |w| ==> l[i] == LowerChar(w[i]);
  }

  /** Under the `i` flag the opening tag is "<script" after lower-casing. */
  lemma OpensScriptLowered(s: string)
    requires |s| >= 7
    ensures OpensScript(s) <==> ToLower(s[..7]) == "<script"
  {
    var w := s[..7];
    LoweredEquals(w, "<script");
    assert "<script" == ['<', 's', 'c', 'r', 'i', 'p', 't'];
    assert LowerChar(s[0]) == '<' <==> s[0] == '<';
  }

  /** Under the `i` flag the closing tag is "</script>" after lower-casing. */
  lemma ClosesScriptLowered(s: string, p: nat)
    requires p + 9 <= |s|
    ensures ClosesScriptAt(s, p) <==> ToLower(s[p..p + 9]) == "</script>"
  {
    var w, lit := s[p..p + 9], "</script>";
    LoweredEquals(w, lit);
    if ToLower(w) == lit {
      assert LowerChar(w[0]) == lit[0] && LowerChar(w[1]) == lit[1] && LowerChar(w[8]) == lit[8];
      assert LowerChar(w[2]) == lit[2] && LowerChar(w[3]) == lit[3] && LowerChar(w[4]) == lit[4];
      assert LowerChar(w[5]) == lit[5] && LowerChar(w[6]) == lit[6] && LowerChar(w[7]) == lit[7];
    }
    if ClosesScriptAt(s, p) {
      forall i | 0 <= i < 9 ensures LowerChar(w[i]) == lit[i] {
        assert w[i] == s[p + i];
      }
    }
  }

  /** No line terminator in `s[p..i]`: regex `.` can run from `p` to `i`. */
  predicate NoBreak(s: string, p: int, i: int) {
    forall j :: p <= j < i && 0 <= j < |s| ==> !LineTerminator(s[j])
  }

  /** The lazy `.*?` followed by the closing tag, tried from position `p`: the end of
      the first closing tag reachable without crossing a line terminator, if any. */
  function CloseFrom(s: string, p: nat): (e: Option<nat>)
    requires p <= |s|
    ensures e.Some? ==> p + 9 <= e.value <= |s| && ClosesScriptAt(s, e.value - 9)
    decreases |s| - p
  {
    if ClosesScriptAt(s, p) then Some(p + 9)
    else if p < |s| && !LineTerminator(s[p]) then CloseFrom(s, p + 1)
    else None
  }

  /** The match found is the first closing tag, and no line terminator precedes it. */
  lemma {:induction false} CloseFromFirst(s: string, p: nat)
    requires p <= |s|
    ensures CloseFrom(s, p).Some? ==>
              && NoBreak(s, p, CloseFrom(s, p).value - 9)
              && forall i :: p <= i < CloseFrom(s, p).value - 9 ==> !ClosesScriptAt(s, i)
    decreases |s| - p
  {
    if !ClosesScriptAt(s, p) && p < |s| && !LineTerminator(s[p]) {
      CloseFromFirst(s, p + 1);
    }
  }

  /** The scan fails exactly when every closing tag lies beyond a line terminator. */
  lemma {:induction false} CloseFromFails(s: string, p: nat)
    requires p <= |s|
    ensures CloseFrom(s, p).None? <==> forall i :: p <= i && ClosesScriptAt(s, i) ==> !NoBreak(s, p, i)
    decreases |s| - p
  {
    CloseFromFirst(s, p);
    if ClosesScriptAt(s, p) {
    } else if p < |s| && !LineTerminator(s[p]) {
      CloseFromFails(s, p + 1);
      forall i | p + 1 <= i && NoBreak(s, p, i) ensures NoBreak(s, p + 1, i) { }
    } else {
      forall i | p <= i && ClosesScriptAt(s, i) ensures !NoBreak(s, p, i) {
        assert i != p && p < |s| && LineTerminator(s[p]);
      }
    }
  }

  /** Position `k` holds the `>` that ends the opening tag `<script[^>]*>` of `s`. */
  predicate OpenEnd(s: string, k: int) {
    OpensScript(s) && 7 <= k < |s| && s[k] == '>' && '>' !in s[7..k]
  }

  /** The end of the script block that starts `s`: the opening tag, up to its first `>`,
      then the lazy scan for the closing tag. */
  function ScriptEnd(s: string): (e: Option<nat>)
    ensures e.Some? ==> OpensScript(s) && 17 <= e.value <= |s|
  {
    if !OpensScript(s) then None
    else match IndexOf(s[7..], '>')
      case None => None
      case Some(k) => CloseFrom(s, 7 + k + 1)
  }

  /** Once the opening tag's `>` is known, the block's end is the lazy closing-tag scan. */
  lemma ScriptEndAfterOpen(s: string, k: nat)
    requires OpensScript(s) && IndexOf(s[7..], '>') == Some(k)
    ensures ScriptEnd(s) == CloseFrom(s, k + 8)
  {
  }

  /** There is a block exactly when the opening tag is closed by a `>` and a closing
      tag follows it on the same line; its end is where that scan stops. */
  lemma ScriptEndOpens(s: string)
    ensures ScriptEnd(s).Some? ==> exists k :: OpenEnd(s, k) && CloseFrom(s, k + 1) == ScriptEnd(s)
    ensures ScriptEnd(s).None? <==> forall k :: OpenEnd(s, k) ==> CloseFrom(s, k + 1).None?
  {
    if OpensScript(s) {
      match IndexOf(s[7..], '>')
      case None =>
        forall k | 7 <= k < |s| ensures s[k] != '>' { assert s[k] == s[7..][k - 7]; }
      case Some(k) =>
        assert s[7..k + 7] == s[7..][..k];
        assert OpenEnd(s, k + 7);
        forall k' | 7 <= k' < k + 7 ensures s[k'] != '>' { assert s[k'] == s[7..][..k][k' - 7]; }
        forall k' | k + 7 < k' <= |s| ensures '>' in s[7..k'] { assert s[7..k'][k] == s[k + 7]; }
    }
  }

  /** `.replace(/<script[^>]*>.*?<\/script>/gi, '')` */
  function StripScripts(s: string): (r: string)
    ensures |r| <= |s|
    ensures '<' !in s ==> r == s
    decreases |s|
  {
    if s == [] then []
    else match ScriptEnd(s)
      case Some(e) => StripScripts(s[e..])
      case None => [s[0]] + StripScripts(s[1..])
  }

  /** A match found in `s` is found the same in any extension of `s`. */
  lemma {:induction false} CloseFromExtends(s: string, q: string, p: nat)
    requires p <= |s| && CloseFrom(s, p).Some?
    ensures CloseFrom(s + q, p) == CloseFrom(s, p)
    decreases |s| - p
  {
    var t := s + q;
    assert p + 9 <= |s|;
    assert t[p..p + 9] == s[p..p + 9];
    if !ClosesScriptAt(s, p) {
      assert t[p] == s[p];
      CloseFromExtends(s, q, p + 1);
    }
  }

  /** A script block found in `b` is found the same in any extension of `b`. */
  lemma ScriptEndExtends(b: string, q: string)
    requires ScriptEnd(b).Some?
    ensures ScriptEnd(b + q) == ScriptEnd(b)
  {
    var s := b + q;
    assert OpensScript(b);
    var m := IndexOf(b[7..], '>');
    assert m.Some?;
    var k := m.value;
    ScriptEndAfterOpen(b, k);
    assert s[..7] == b[..7];
    assert s[7..][..k] == b[7..][..k] && s[7..][k] == '>';
    IndexOfFirst(s[7..], '>', k);
    ScriptEndAfterOpen(s, k);
    CloseFromExtends(b, q, k + 8);
  }

  /** A script block needs a second `<` (its closing tag) after its first character. */
  lemma ScriptNeedsClosing(s: string)
    requires ScriptEnd(s).Some?
    ensures '<' in s[1..]
  {
    var e := ScriptEnd(s).value;
    assert s[1..][e - 10] == s[e - 9];
  }

  /** Where no script block starts, the first character is kept. */
  lemma StripScriptsStep(s: string)
    requires s != [] && ScriptEnd(s).None?
    ensures StripScripts(s) == [s[0]] + StripScripts(s[1..])
  {
  }

  /** Text before the first `<` is copied as it is. */
  lemma {:induction false} StripScriptsPlain(p: string, q: string)
    requires '<' !in p
    ensures StripScripts(p + q) == p + StripScripts(q)
    decreases |p|
  {
    if p != [] {
      var s := p + q;
      assert s[0] == p[0] && ScriptEnd(s).None?;
      StripScriptsStep(s);
      assert s[1..] == p[1..] + q;
      StripScriptsPlain(p[1..], q);
      assert p == [p[0]] + p[1..];
    } else {
      assert p + q == q;
    }
  }

  /** A script block `b` after plain text `p` is removed whole, and the scan resumes
      right after its closing tag. */
  lemma StripScriptsRemovesBlock(p: string, b: string, q: string)
    requires '<' !in p && ScriptEnd(b) == Some(|b|)
    ensures StripScripts(p + b + q) == p + StripScripts(q)
  {
    ScriptEndExtends(b, q);
    var s := b + q;
    assert s[|b|..] == q;
    assert p + b + q == p + s;
    StripScriptsPlain(p, s);
  }

  /** Text in which no script block starts anywhere is left alone. */
  lemma {:induction false} StripScriptsKeepsScriptFree(s: string)
    requires forall i :: 0 <= i < |s| ==> ScriptEnd(s[i..]).None?
    ensures StripScripts(s) == s
    decreases |s|
  {
    if s != [] {
      assert s[0..] == s;
      assert forall i :: 0 <= i < |s| - 1 ==> s[1..][i..] == s[i + 1..];
      StripScriptsKeepsScriptFree(s[1..]);
      assert s == [s[0]] + s[1..];
    }
  }

  /** Every script block has a `<` (its closing tag) somewhere after a `>` (the end of
      its opening tag). */
  lemma ScriptBlockShape(s: string)
    ensures ScriptEnd(s).Some? ==> exists k, j :: 0 <= k < j < |s| && s[k] == '>' && s[j] == '<'
  {
    if ScriptEnd(s).Some? {
      var k, j := ScriptBlockWitness(s);
    }
  }

  lemma ScriptBlockWitness(s: string) returns (k: nat, j: nat)
    requires ScriptEnd(s).Some?
    ensures k < j < |s| && s[k] == '>' && s[j] == '<'
  {
    j := ScriptEnd(s).value - 9;
    k := ScriptOpenEnd(s);
  }

  /** The `>` that ends the opening tag, which lies before the closing tag. */
  lemma ScriptOpenEnd(s: string) returns (k: nat)
    requires ScriptEnd(s).Some?
    ensures k + 9 < ScriptEnd(s).value && s[k] == '>'
  {
    assert OpensScript(s);
    var m := IndexOf(s[7..], '>');
    assert m.Some?;
    ScriptEndAfterOpen(s, m.value);
    k := m.value + 7;
  }

  /** No `<` anywhere after a `>`. */
  predicate NoLtAfterGt(s: string) {
    forall k, j :: 0 <= k < j < |s| && s[k] == '>' ==> s[j] != '<'
  }

  /** Text with no `<` after any `>` holds no script block, so the script pass keeps it. */
  lemma StripScriptsKeepsNoLtAfterGt(s: string)
    requires NoLtAfterGt(s)
    ensures StripScripts(s) == s
  {
    forall i | 0 <= i < |s| ensures ScriptEnd(s[i..]).None? {
      ScriptBlockShape(s[i..]);
    }
    StripScriptsKeepsScriptFree(s);
  }

  /** A tag followed by text without `<` opens no script block. */
  lemma TagThenPlainIsScriptFree(t: string, q: string)
    requires TagEnd(t) == Some(|t|) && '<' !in q
    ensures StripScripts(t + q) == t + q
  {
    var s := t + q;
    forall k | 0 <= k < |t| - 1 ensures s[k] != '>' { assert s[k] == t[..|t| - 1][k]; }
    forall j | |t| <= j < |s| ensures s[j] != '<' { assert s[j] == q[j - |t|]; }
    StripScriptsKeepsNoLtAfterGt(s);
  }

  // ---------------------------------------------------------------------------
  // Fields

  /** The chain for `question` and `concept`: scripts, tags, trim, cut. */
  function CleanText(s: string, limit: nat): (r: string)
    ensures |r| <= limit
    ensures NoTag(r)
    ensures r == [] || !IsSpace(r[0])
    ensures '<' !in s ==> r == Prefix(Trim(s), limit)
  {
    var stripped := StripTags(StripScripts(s));
    assert '<' !in s ==> StripTags(s) == s by {
      if '<' !in s { StripTagsKeepsTagFree(s); }
    }
    TrimKeepsTagFree(stripped);
    PrefixKeepsTagFree(Trim(stripped), limit);
    Prefix(Trim(stripped), limit)
  }

  /** The chain for `name`: tags, trim, cut (no script pass). */
  function CleanName(s: string): (r: string)
    ensures |r| <= NameLimit
    ensures NoTag(r)
    ensures r == [] || !IsSpace(r[0])
    ensures '<' !in s ==> r == Prefix(Trim(s), NameLimit)
  {
    var stripped := StripTags(s);
    assert '<' !in s ==> StripTags(s) == s by {
      if '<' !in s { StripTagsKeepsTagFree(s); }
    }
    TrimKeepsTagFree(stripped);
    PrefixKeepsTagFree(Trim(stripped), NameLimit);
    Prefix(Trim(stripped), NameLimit)
  }

  /** In `question` and `concept` a tag is removed whole from otherwise plain text. */
  lemma CleanTextDropsTag(p: string, t: string, q: string, limit: nat)
    requires '<' !in p && TagEnd(t) == Some(|t|) && '<' !in q
    ensures CleanText(p + t + q, limit) == Prefix(Trim(p + q), limit)
  {
    TagThenPlainIsScriptFree(t, q);
    StripScriptsPlain(p, t + q);
    assert p + (t + q) == p + t + q;
    StripTagsRemovesTag(p, t, q);
    assert NoTag(q);
    StripTagsKeepsTagFree(q);
  }

  /** In `question` and `concept` a script block is removed with its contents. */
  lemma CleanTextDropsScript(p: string, b: string, q: string, limit: nat)
    requires '<' !in p && ScriptEnd(b) == Some(|b|) && '<' !in q
    ensures CleanText(p + b + q, limit) == Prefix(Trim(p + q), limit)
  {
    StripScriptsRemovesBlock(p, b, q);
    assert '<' !in p + q;
    assert NoTag(p + q);
    StripTagsKeepsTagFree(p + q);
  }

  /** In `name` a tag is removed whole from otherwise plain text. */
  lemma CleanNameDropsTag(p: string, t: string, q: string)
    requires '<' !in p && TagEnd(t) == Some(|t|) && '<' !in q
    ensures CleanName(p + t + q) == Prefix(Trim(p + q), NameLimit)
  {
    StripTagsRemovesTag(p, t, q);
    assert NoTag(q);
    StripTagsKeepsTagFree(q);
  }

  /** The chain for `email`: trim, lower-case, cut (no tag stripping). */
  function CleanEmail(s: string): (r: string)
    ensures |r| <= EmailLimit
    ensures forall i :: 0 <= i < |r| ==> !IsUpper(r[i])
    ensures |r| == if |Trim(s)| <= EmailLimit then |Trim(s)| else EmailLimit
    ensures forall i :: 0 <= i < |r| ==> r[i] == LowerChar(Trim(s)[i])
    ensures r == [] || !IsSpace(r[0])
  {
    var t := Trim(s);
    LoweredPrefix(t, EmailLimit);
    Prefix(ToLower(t), EmailLimit)
  }

  /** An address that is already trimmed, lower-case and short is kept as it is. */
  lemma CleanEmailKeepsClean(s: string)
    ensures ((forall i :: 0 <= i < |s| ==> !IsUpper(s[i])) && |s| <= EmailLimit
             && (s == [] || (!IsSpace(s[0]) && !IsSpace(s[|s| - 1])))) ==> CleanEmail(s) == s
  {
    if (forall i :: 0 <= i < |s| ==> !IsUpper(s[i])) && |s| <= EmailLimit
       && (s == [] || (!IsSpace(s[0]) && !IsSpace(s[|s| - 1]))) {
      TrimKeepsTrimmed(s);
      var r := CleanEmail(s);
      assert forall i :: 0 <= i < |s| ==> r[i] == s[i];
    }
  }

  /** Cutting the lower-cased text lowers each kept character. */
  lemma LoweredPrefix(t: string, n: nat)
    ensures |Prefix(ToLower(t), n)| == if |t| <= n then |t| else n
    ensures forall i :: 0 <= i < |Prefix(ToLower(t), n)| ==> Prefix(ToLower(t), n)[i] == LowerChar(t[i])
  {
    var l := ToLower(t);
    var r := Prefix(l, n);
    forall i | 0 <= i < |r| ensures r[i] == LowerChar(t[i]) {
      assert r[i] == l[i];
    }
  }

  lemma TrimKeepsTrimmed(s: string)
    requires s == [] || (!IsSpace(s[0]) && !IsSpace(s[|s| - 1]))
    ensures Trim(s) == s
  {
    var r := Trim(s);
    var a :| TrimmedAt(s, a, r);
    if s != [] {
      assert a == 0;
      assert a + |r| == |s|;
    }
  }

  lemma TrimKeepsTagFree(s: string)
    requires NoTag(s)
    ensures NoTag(Trim(s))
  {
    var r := Trim(s);
    var a :| TrimmedAt(s, a, r);
    forall i | 0 <= i < |r| && r[i] == '<'
      ensures (i + 1 < |r| && r[i + 1] == '>') || '>' !in r[i + 1..]
    {
      assert s[a + i] == '<';
      if a + i + 1 < |s| && s[a + i + 1] == '>' {
        assert a + i + 1 < a + |r|;
        assert r[i + 1] == s[a + i + 1];
      } else {
        assert '>' !in s[a + i + 1..];
        forall j | i + 1 <= j < |r| ensures r[j] != '>' {
          assert r[j] == s[a + j] == s[a + i + 1..][j - i - 1];
        }
      }
    }
  }

  lemma PrefixKeepsTagFree(s: string, n: nat)
    requires NoTag(s)
    ensures NoTag(Prefix(s, n))
  {
    var r := Prefix(s, n);
    forall i | 0 <= i < |r| && r[i] == '<'
      ensures (i + 1 < |r| && r[i + 1] == '>') || '>' !in r[i + 1..]
    {
      assert s[i] == '<';
      if i + 1 < |s| && s[i + 1] == '>' {
        if i + 1 >= |r| { assert r[i + 1..] == []; }
      } else {
        forall j | i + 1 <= j < |r| ensures r[j] != '>' {
          assert r[j] == s[i + 1..][j - i - 1];
        }
      }
    }
  }

  // ---------------------------------------------------------------------------
  // The middleware

  /** The fields the middleware looks at; the rest of the body is opaque to it. */
  datatype Body<Rest> = Body(question: Option<string>, concept: Option<string>,
                             name: Option<string>, email: Option<string>, rest: Rest)

  /** `if (req.body.field) req.body.field = clean(req.body.field)` */
  function CleanIfTruthy(field: Option<string>, clean: string -> string): (r: Option<string>)
    ensures field.None? || field.value == [] ==> r == field
    ensures field.Some? && field.value != [] ==> r == Some(clean(field.value))
  {
    if field.Some? && field.value != [] then Some(clean(field.value)) else field
  }

  /** `sanitizeInput`, after which `next()` runs once with the returned body. */
  function SanitizeBody<Rest>(b: Body<Rest>): (r: Body<Rest>)
    ensures r.rest == b.rest
    ensures b.question.None? || b.question.value == [] ==> r.question == b.question
    ensures b.question.Some? && b.question.value != [] ==> r.question == Some(CleanText(b.question.value, QuestionLimit))
    ensures b.concept.Some? && b.concept.value != [] ==> r.concept == Some(CleanText(b.concept.value, ConceptLimit))
    ensures b.name.Some? && b.name.value != [] ==> r.name == Some(CleanName(b.name.value))
    ensures b.email.Some? && b.email.value != [] ==> r.email == Some(CleanEmail(b.email.value))
    ensures b.question.Some? && b.question.value != [] ==>
              r.question.Some? && |r.question.value| <= QuestionLimit && NoTag(r.question.value)
              && (r.question.value == [] || !IsSpace(r.question.value[0]))
    ensures b.concept.None? || b.concept.value == [] ==> r.concept == b.concept
    ensures b.concept.Some? && b.concept.value != [] ==>
              r.concept.Some? && |r.concept.value| <= ConceptLimit && NoTag(r.concept.value)
              && (r.concept.value == [] || !IsSpace(r.concept.value[0]))
    ensures b.name.None? || b.name.value == [] ==> r.name == b.name
    ensures b.name.Some? && b.name.value != [] ==>
              r.name.Some? && |r.name.value| <= NameLimit && NoTag(r.name.value)
    ensures b.email.None? || b.email.value == [] ==> r.email == b.email
    ensures b.email.Some? && b.email.value != [] ==>
              r.email.Some? && |r.email.value| <= EmailLimit
              && forall i :: 0 <= i < |r.email.value| ==> !IsUpper(r.email.value[i])
  {
    Body(CleanIfTruthy(b.question, s => CleanText(s, QuestionLimit)),
         CleanIfTruthy(b.concept, s => CleanText(s, ConceptLimit)),
         CleanIfTruthy(b.name, CleanName),
         CleanIfTruthy(b.email, CleanEmail),
         b.rest)
  }
}
