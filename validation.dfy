/** Input sanitisation and the shared name and description checks. */
module Validation {
  import opened Common
  import opened Text

  // ---------------------------------------------------------------------
  // sanitize_string
  // ---------------------------------------------------------------------

  predicate NoControl(s: string) {
    forall j :: 0 <= j < |s| ==> !IsControl(s[j])
  }

  /** The `map`/`filter` step: a control character that is whitespace
      becomes a space, any other control character is dropped. */
  function Scrub(s: string): (r: string)
    ensures NoControl(r)
  {
    if s == [] then []
    else
      var c := s[0];
      (if IsControl(c) then (if IsWhitespace(c) then " " else "") else [c]) + Scrub(s[1..])
  }

  /** Length of the leading run of non-whitespace characters. */
  function WordEnd(s: string): (k: nat)
    ensures k <= |s|
    ensures forall j :: 0 <= j < k ==> !IsWhitespace(s[j])
    ensures k < |s| ==> IsWhitespace(s[k])
  {
    if s == [] || IsWhitespace(s[0]) then 0 else 1 + WordEnd(s[1..])
  }

  predicate IsWord(w: string) {
    w != [] && forall j :: 0 <= j < |w| ==> !IsWhitespace(w[j])
  }

  /** `str::split_whitespace`: the maximal runs of non-whitespace characters,
      in order. */
  function Words(s: string): (ws: seq<string>)
    ensures forall i :: 0 <= i < |ws| ==> IsWord(ws[i])
    ensures NoControl(s) ==> forall i :: 0 <= i < |ws| ==> NoControl(ws[i])
    decreases |s|
  {
    if s == [] then []
    else if IsWhitespace(s[0]) then Words(s[1..])
    else
      var k := WordEnd(s);
      assert NoControl(s) ==> NoControl(s[..k]) && NoControl(s[k..]);
      [s[..k]] + Words(s[k..])
  }

  /** `join(" ")`. */
  function JoinSpace(ws: seq<string>): string {
    if ws == [] then ""
    else if |ws| == 1 then ws[0]
    else ws[0] + " " + JoinSpace(ws[1..])
  }

  /** `sanitize_string`: trim, scrub control characters, then collapse every
      run of whitespace into one space. */
  function SanitizeString(input: string): string {
    JoinSpace(Words(Scrub(Trim(input))))
  }

  /** What sanitised text looks like: no control characters, and whitespace
      only as single spaces strictly between two other characters. */
  predicate Sanitized(r: string) {
    && NoControl(r)
    && forall i :: 0 <= i < |r| && IsWhitespace(r[i]) ==>
         r[i] == ' ' && 0 < i < |r| - 1 && !IsWhitespace(r[i + 1])
  }

  lemma JoinCons(w: string, ws: seq<string>)
    ensures JoinSpace([w] + ws) == if ws == [] then w else w + " " + JoinSpace(ws)
  {
    if ws != [] {
      assert ([w] + ws)[1..] == ws;
    }
  }

  /** Joining words with single spaces gives sanitised text that starts and
      ends with a word character. */
  lemma {:induction false} JoinSanitized(ws: seq<string>)
    requires forall i :: 0 <= i < |ws| ==> IsWord(ws[i]) && NoControl(ws[i])
    ensures Sanitized(JoinSpace(ws))
    ensures ws != [] ==> JoinSpace(ws) != [] && !IsWhitespace(JoinSpace(ws)[0])
                         && !IsWhitespace(JoinSpace(ws)[|JoinSpace(ws)| - 1])
  {
    if |ws| == 1 {
      assert IsWord(ws[0]) && NoControl(ws[0]);
    } else if |ws| > 1 {
      var w := ws[0];
      var rest := JoinSpace(ws[1..]);
      JoinSanitized(ws[1..]);
      assert IsWord(w) && NoControl(w);
      var r := w + " " + rest;
      assert r == JoinSpace(ws);
      forall j | 0 <= j < |r| ensures !IsControl(r[j]) {
        if j > |w| {
          assert r[j] == rest[j - |w| - 1];
        }
      }
      forall i | 0 <= i < |r| && IsWhitespace(r[i])
        ensures r[i] == ' ' && 0 < i < |r| - 1 && !IsWhitespace(r[i + 1])
      {
        if i > |w| {
          assert r[i] == rest[i - |w| - 1];
          assert r[i + 1] == rest[i - |w|];
        } else if i == |w| {
          assert r[i + 1] == rest[0];
        }
      }
      assert r[|r| - 1] == rest[|rest| - 1];
    }
  }

  /** The output of `sanitize_string` has no control characters, no leading
      or trailing whitespace and no run of two whitespace characters. */
  lemma SanitizeSanitized(input: string)
    ensures Sanitized(SanitizeString(input))
  {
    JoinSanitized(Words(Scrub(Trim(input))));
  }

  lemma {:induction false} ScrubIdentity(s: string)
    requires NoControl(s)
    ensures Scrub(s) == s
  {
    if s != [] {
      assert NoControl(s[1..]);
      ScrubIdentity(s[1..]);
    }
  }

  lemma TrimIdentity(s: string)
    requires s == [] || (!IsWhitespace(s[0]) && !IsWhitespace(s[|s| - 1]))
    ensures Trim(s) == s
  {
    var t := TrimStart(s);
    assert t == s;
    var u := TrimEnd(t);
    assert u == s;
  }

  lemma SanitizedTail(s: string, k: nat)
    requires Sanitized(s) && k < |s| && s[k] == ' '
    ensures Sanitized(s[k + 1..]) && s[k + 1..] != [] && !IsWhitespace(s[k + 1])
  {
    var t := s[k + 1..];
    forall i | 0 <= i < |t| && IsWhitespace(t[i])
      ensures t[i] == ' ' && 0 < i < |t| - 1 && !IsWhitespace(t[i + 1])
    {
      assert t[i] == s[k + 1 + i];
      assert i + 1 < |t| ==> t[i + 1] == s[k + 2 + i];
    }
  }

  /** Sanitised text is its own words joined by single spaces. */
  lemma {:induction false} WordsJoin(s: string)
    requires Sanitized(s) && s != []
    ensures Words(s) != [] && JoinSpace(Words(s)) == s
    decreases |s|
  {
    var k := WordEnd(s);
    if k == |s| {
      WholeWord(s);
      JoinCons(s, []);
    } else {
      var tail := s[k + 1..];
      FirstWord(s, k);
      WordsJoin(tail);
      JoinCons(s[..k], Words(tail));
    }
  }

  /** Sanitised text without a space is one word. */
  lemma WholeWord(s: string)
    requires Sanitized(s) && s != [] && WordEnd(s) == |s|
    ensures Words(s) == [s]
  {
    assert !IsWhitespace(s[0]);
    assert s[..|s|] == s && s[|s|..] == [];
  }

  /** Sanitised text with a space is its first word, that space, and
      sanitised text again. */
  lemma FirstWord(s: string, k: nat)
    requires Sanitized(s) && s != [] && k == WordEnd(s) && k < |s|
    ensures Words(s) == [s[..k]] + Words(s[k + 1..])
    ensures s == s[..k] + " " + s[k + 1..]
    ensures Sanitized(s[k + 1..]) && s[k + 1..] != [] && |s[k + 1..]| < |s|
  {
    assert !IsWhitespace(s[0]);
    assert Words(s) == [s[..k]] + Words(s[k..]);
    SanitizedTail(s, k);
    SkipSpace(s[k..]);
    assert s[k..][1..] == s[k + 1..];
    assert s[k] == ' ';
    SplitAt(s, k);
  }

  lemma SkipSpace(x: string)
    requires x != [] && IsWhitespace(x[0])
    ensures Words(x) == Words(x[1..])
  {
  }

  lemma SplitAt(s: string, k: nat)
    requires k < |s| && s[k] == ' '
    ensures s == s[..k] + " " + s[k + 1..]
  {
  }

  /** Sanitised text is left as it is. */
  lemma SanitizeFixpoint(s: string)
    requires Sanitized(s)
    ensures SanitizeString(s) == s
  {
    if s != [] {
      TrimIdentity(s);
      ScrubIdentity(s);
      WordsJoin(s);
    }
  }

  /** `sanitize_string` is idempotent. */
  lemma SanitizeIdempotent(input: string)
    ensures SanitizeString(SanitizeString(input)) == SanitizeString(input)
  {
    SanitizeSanitized(input);
    SanitizeFixpoint(SanitizeString(input));
  }

  /** The characters that are neither whitespace nor control characters. */
  function Visible(s: string): string {
    if s == [] then []
    else (if IsWhitespace(s[0]) || IsControl(s[0]) then [] else [s[0]]) + Visible(s[1..])
  }

  lemma {:induction false} VisibleAppend(a: string, b: string)
    ensures Visible(a + b) == Visible(a) + Visible(b)
  {
    if a != [] {
      assert (a + b)[0] == a[0] && (a + b)[1..] == a[1..] + b;
      VisibleAppend(a[1..], b);
    } else {
      assert a + b == b;
    }
  }

  lemma {:induction false} VisibleBlank(s: string)
    requires forall i :: 0 <= i < |s| ==> IsWhitespace(s[i])
    ensures Visible(s) == []
  {
    if s != [] {
      VisibleBlank(s[1..]);
    }
  }

  lemma VisibleTrimStart(s: string)
    ensures Visible(TrimStart(s)) == Visible(s)
  {
    var t := TrimStart(s);
    var head := s[..|s| - |t|];
    assert s == head + t;
    VisibleBlank(head);
    VisibleAppend(head, t);
  }

  lemma VisibleTrimEnd(s: string)
    ensures Visible(TrimEnd(s)) == Visible(s)
  {
    var u := TrimEnd(s);
    var tail := s[|u|..];
    assert s == u + tail;
    VisibleBlank(tail);
    VisibleAppend(u, tail);
  }

  lemma {:induction false} VisibleScrub(s: string)
    ensures Visible(Scrub(s)) == Visible(s)
  {
    if s != [] {
      var c := s[0];
      var piece := if IsControl(c) then (if IsWhitespace(c) then " " else "") else [c];
      VisibleAppend(piece, Scrub(s[1..]));
      VisibleScrub(s[1..]);
    }
  }

  lemma {:induction false} VisibleWords(s: string)
    ensures Visible(JoinSpace(Words(s))) == Visible(s)
    decreases |s|
  {
    if s != [] {
      if IsWhitespace(s[0]) {
        VisibleWords(s[1..]);
      } else {
        var k := WordEnd(s);
        var rest := Words(s[k..]);
        VisibleWords(s[k..]);
        JoinCons(s[..k], rest);
        assert s == s[..k] + s[k..];
        VisibleAppend(s[..k], s[k..]);
        if rest != [] {
          VisibleAppend(s[..k] + " ", JoinSpace(rest));
          VisibleAppend(s[..k], " ");
        }
      }
    }
  }

  /** Sanitising loses and adds no visible character: every character that is
      neither whitespace nor a control character survives, in order. */
  lemma SanitizeKeepsVisible(input: string)
    ensures Visible(SanitizeString(input)) == Visible(input)
  {
    VisibleTrimStart(input);
    VisibleTrimEnd(TrimStart(input));
    VisibleScrub(Trim(input));
    VisibleWords(Scrub(Trim(input)));
  }

  lemma {:induction false} ScrubAppend(a: string, b: string)
    ensures Scrub(a + b) == Scrub(a) + Scrub(b)
  {
    if a != [] {
      assert (a + b)[0] == a[0] && (a + b)[1..] == a[1..] + b;
      ScrubAppend(a[1..], b);
    } else {
      assert a + b == b;
    }
  }

  lemma {:induction false} TrimStartBlank(pre: string, x: string)
    requires forall i :: 0 <= i < |pre| ==> IsWhitespace(pre[i])
    ensures TrimStart(pre + x) == TrimStart(x)
  {
    if pre != [] {
      assert (pre + x)[1..] == pre[1..] + x;
      TrimStartBlank(pre[1..], x);
    } else {
      assert pre + x == x;
    }
  }

  lemma {:induction false} TrimEndBlank(x: string, post: string)
    requires forall i :: 0 <= i < |post| ==> IsWhitespace(post[i])
    ensures TrimEnd(x + post) == TrimEnd(x)
  {
    if post != [] {
      var shorter := post[..|post| - 1];
      assert (x + post)[..|x + post| - 1] == x + shorter;
      TrimEndBlank(x, shorter);
    } else {
      assert x + post == x;
    }
  }

  /** Trimming removes exactly the whitespace around the text. */
  lemma TrimPadded(pre: string, w: string, post: string)
    requires forall i :: 0 <= i < |pre| ==> IsWhitespace(pre[i])
    requires forall i :: 0 <= i < |post| ==> IsWhitespace(post[i])
    requires w != [] && !IsWhitespace(w[0]) && !IsWhitespace(w[|w| - 1])
    ensures Trim(pre + w + post) == w
  {
    assert pre + w + post == pre + (w + post);
    TrimStartBlank(pre, w + post);
    assert (w + post)[0] == w[0];
    TrimEndBlank(w, post);
  }

  lemma {:induction false} ScrubBlank(sep: string)
    requires forall i :: 0 <= i < |sep| ==> IsWhitespace(sep[i])
    ensures |Scrub(sep)| == |sep|
    ensures forall i :: 0 <= i < |Scrub(sep)| ==> IsWhitespace(Scrub(sep)[i])
  {
    if sep != [] {
      ScrubBlank(sep[1..]);
    }
  }

  lemma {:induction false} WordsSkipBlank(sep: string, x: string)
    requires forall i :: 0 <= i < |sep| ==> IsWhitespace(sep[i])
    ensures Words(sep + x) == Words(x)
  {
    if sep != [] {
      assert (sep + x)[0] == sep[0] && (sep + x)[1..] == sep[1..] + x;
      WordsSkipBlank(sep[1..], x);
    } else {
      assert sep + x == x;
    }
  }

  lemma WordEndOfWord(w: string, x: string)
    requires IsWord(w) && (x == [] || IsWhitespace(x[0]))
    ensures WordEnd(w + x) == |w|
  {
    var s := w + x;
    assert forall j :: 0 <= j < |w| ==> s[j] == w[j];
    if x != [] {
      assert IsWhitespace(s[|w|]);
    }
  }

  lemma WordsOfWord(w: string, x: string)
    requires IsWord(w) && (x == [] || IsWhitespace(x[0]))
    ensures Words(w + x) == [w] + Words(x)
  {
    var s := w + x;
    assert s[0] == w[0];
    WordEndOfWord(w, x);
    assert s[..|w|] == w && s[|w|..] == x;
  }

  lemma ScrubAround(w1: string, mid: string, w2: string)
    requires NoControl(w1) && NoControl(w2)
    ensures Scrub(w1 + mid + w2) == w1 + Scrub(mid) + w2
  {
    ScrubAppend(w1 + mid, w2);
    ScrubAppend(w1, mid);
    ScrubIdentity(w1);
    ScrubIdentity(w2);
  }

  lemma WordsOfTwo(w1: string, gap: string, w2: string)
    requires IsWord(w1) && IsWord(w2)
    requires gap != [] && forall i :: 0 <= i < |gap| ==> IsWhitespace(gap[i])
    ensures Words(w1 + gap + w2) == [w1, w2]
  {
    assert w1 + gap + w2 == w1 + (gap + w2);
    assert (gap + w2)[0] == gap[0];
    WordsOfWord(w1, gap + w2);
    WordsSkipBlank(gap, w2);
    WordsOfWord(w2, []);
    assert w2 + [] == w2;
  }

  /** Text that is one word surrounded by whitespace sanitises to the word:
      "  hello  " and "\t  spaces  \n" become "hello" and "spaces". */
  lemma SanitizeTrimsWord(pre: string, w: string, post: string)
    requires forall i :: 0 <= i < |pre| ==> IsWhitespace(pre[i])
    requires forall i :: 0 <= i < |post| ==> IsWhitespace(post[i])
    requires IsWord(w) && NoControl(w)
    ensures SanitizeString(pre + w + post) == w
  {
    TrimPadded(pre, w, post);
    ScrubIdentity(w);
    WordsOfWord(w, []);
    assert w + [] == w;
  }

  /** Two words separated by any run of whitespace, control characters such
      as a newline included, come out separated by exactly one space:
      "hello\nworld" becomes "hello world". */
  lemma SanitizeJoinsWords(w1: string, sep: string, w2: string)
    requires IsWord(w1) && NoControl(w1) && IsWord(w2) && NoControl(w2)
    requires sep != [] && forall i :: 0 <= i < |sep| ==> IsWhitespace(sep[i])
    ensures SanitizeString(w1 + sep + w2) == w1 + " " + w2
  {
    var s := w1 + sep + w2;
    assert s[0] == w1[0] && s[|s| - 1] == w2[|w2| - 1];
    TrimIdentity(s);
    ScrubAround(w1, sep, w2);
    ScrubBlank(sep);
    WordsOfTwo(w1, Scrub(sep), w2);
    JoinCons(w1, [w2]);
  }

  lemma WordConcat(w1: string, w2: string)
    requires IsWord(w1) && IsWord(w2) && NoControl(w1) && NoControl(w2)
    ensures IsWord(w1 + w2) && NoControl(w1 + w2)
  {
    var w := w1 + w2;
    assert forall j :: 0 <= j < |w| ==> w[j] == if j < |w1| then w1[j] else w2[j - |w1|];
  }

  /** A control character that is not whitespace is deleted outright:
      "test\0string" becomes "teststring". */
  lemma SanitizeDropsControl(w1: string, c: char, w2: string)
    requires IsWord(w1) && NoControl(w1) && IsWord(w2) && NoControl(w2)
    requires IsControl(c) && !IsWhitespace(c)
    ensures SanitizeString(w1 + [c] + w2) == w1 + w2
  {
    var s := w1 + [c] + w2;
    assert s[0] == w1[0] && s[|s| - 1] == w2[|w2| - 1];
    TrimIdentity(s);
    ScrubAround(w1, [c], w2);
    assert Scrub([c]) == [];
    assert w1 + [] + w2 == w1 + w2;
    WordConcat(w1, w2);
    WordsOfWord(w1 + w2, []);
    assert w1 + w2 + [] == w1 + w2;
  }

  // ---------------------------------------------------------------------
  // validate_name, validate_description
  // ---------------------------------------------------------------------

  /** `validate_name(input, min_len, max_len, field_name)`: lengths are
      UTF-8 byte counts of the sanitised text. */
  function ValidateName(input: string, minLen: nat, maxLen: nat, fieldName: string): (r: Result<string>)
    ensures r.Ok? <==> SanitizeString(input) != [] && minLen <= Utf8Len(SanitizeString(input)) <= maxLen
    ensures r.Ok? ==> r.value == SanitizeString(input) && Sanitized(r.value)
    ensures var s := SanitizeString(input);
      s == [] || Utf8Len(s) < minLen ==>
        r == Err(fieldName + " must be at least " + NatToString(minLen) + " character" + (if minLen == 1 then "" else "s"))
    ensures var s := SanitizeString(input);
      s != [] && minLen <= Utf8Len(s) && Utf8Len(s) > maxLen ==>
        r == Err(fieldName + " must be " + NatToString(maxLen) + " characters or less")
  {
    SanitizeSanitized(input);
    var s := SanitizeString(input);
    if s == [] || Utf8Len(s) < minLen then
      Err(fieldName + " must be at least " + NatToString(minLen) + " character" + (if minLen == 1 then "" else "s"))
    else if Utf8Len(s) > maxLen then
      Err(fieldName + " must be " + NatToString(maxLen) + " characters or less")
    else
      Ok(s)
  }

  /** `validate_description(description, max_len)`: empty text is allowed. */
  function ValidateDescription(description: string, maxLen: nat): (r: Result<string>)
    ensures r.Ok? <==> Utf8Len(SanitizeString(description)) <= maxLen
    ensures r.Ok? ==> r.value == SanitizeString(description) && Sanitized(r.value)
    ensures r.Err? ==> r.error == "Description must be " + NatToString(maxLen) + " characters or less"
  {
    SanitizeSanitized(description);
    var s := SanitizeString(description);
    if Utf8Len(s) > maxLen then
      Err("Description must be " + NatToString(maxLen) + " characters or less")
    else
      Ok(s)
  }

  /** The error names the field and the minimum, with a plural `s` unless
      the minimum is one. */
  lemma ValidateNameTooShort(input: string, minLen: nat, maxLen: nat, fieldName: string)
    requires SanitizeString(input) == [] || Utf8Len(SanitizeString(input)) < minLen
    ensures ValidateName(input, minLen, maxLen, fieldName) ==
              Err(fieldName + " must be at least " + NatToString(minLen) + " character"
                  + (if minLen == 1 then "" else "s"))
  {
  }

  /** A name that is one word with whitespace around it is accepted as
      the bare word when its length is within the bounds. */
  lemma ValidateNameTrims(pre: string, w: string, post: string, minLen: nat, maxLen: nat, fieldName: string)
    requires forall i :: 0 <= i < |pre| ==> IsWhitespace(pre[i])
    requires forall i :: 0 <= i < |post| ==> IsWhitespace(post[i])
    requires IsWord(w) && NoControl(w) && minLen <= Utf8Len(w) <= maxLen
    ensures ValidateName(pre + w + post, minLen, maxLen, fieldName) == Ok(w)
  {
    SanitizeTrimsWord(pre, w, post);
  }

  /** An empty or all-whitespace name is refused whatever the bounds. */
  lemma ValidateNameBlank(input: string, minLen: nat, maxLen: nat, fieldName: string)
    requires forall i :: 0 <= i < |input| ==> IsWhitespace(input[i])
    ensures ValidateName(input, minLen, maxLen, fieldName).Err?
  {
    TrimEmptyIff(input);
  }
}
