/** The regular-expression cleaners of doc_converter.py: the `<title>` search
    and the tag and whitespace substitutions of `html_to_pdf`, and the header,
    control-word and brace substitutions of `rtf_to_pdf`. Each `re.sub` is a
    left-to-right scan that replaces non-overlapping matches. */
module Cleaners {
  import opened Wrappers
  import opened Text

  // ---------------------------------------------------------------------
  // re.search(r'<title>(.*?)</title>', html, re.IGNORECASE)

  /** How `re.IGNORECASE` compares a text character with a character of the
      (lower-case ASCII) pattern: ASCII capitals fold to lower case, and
      Python's Unicode folding also lets U+0130 and U+0131 stand for 'i'. */
  function Fold(c: char): char {
    if 'A' <= c <= 'Z' then (c as int + 32) as char
    else if c == '\U{130}' || c == '\U{131}' then 'i'
    else c
  }

  const OpenTag := "<title>"
  const CloseTag := "</title>"

  /** The lower-case literal `lit` matches case-insensitively at `p`. */
  predicate MatchesAt(s: string, p: nat, lit: string) {
    p + |lit| <= |s| && forall k :: 0 <= k < |lit| ==> Fold(s[p + k]) == lit[k]
  }

  /** A match of `open(.*?)close`: the opening literal at `p`, the group from
      `p + |open|` to `q` without a line break (`.` does not match `\n`),
      and the closing literal at `q`. */
  predicate Hit(s: string, open: string, close: string, p: nat, q: nat) {
    MatchesAt(s, p, open) && p + |open| <= q && MatchesAt(s, q, close)
    && forall i :: p + |open| <= i < q ==> s[i] != '\n'
  }

  /** The lazy `(.*?)close` from `q`: the first place the closing literal
      matches, unless a line break comes first. */
  function CloseFrom(s: string, close: string, q: nat): (r: Option<nat>)
    ensures r.Some? ==> q <= r.value && MatchesAt(s, r.value, close)
    ensures r.Some? ==> forall i :: q <= i < r.value ==> s[i] != '\n'
    decreases |s| - q
  {
    if MatchesAt(s, q, close) then Some(q)
    else if q < |s| && s[q] != '\n' then CloseFrom(s, close, q + 1)
    else None
  }

  /** The search from start position `p` on: the first start where the
      opening literal matches and a closing one follows on the same line,
      with the group's bounds. */
  function MatchFrom(s: string, open: string, close: string, p: nat): (r: Option<(nat, nat)>)
    ensures r.Some? ==> p <= r.value.0 && Hit(s, open, close, r.value.0, r.value.1)
    decreases |s| - p
  {
    if p > |s| then None
    else if MatchesAt(s, p, open) && CloseFrom(s, close, p + |open|).Some? then
      Some((p, CloseFrom(s, close, p + |open|).value))
    else MatchFrom(s, open, close, p + 1)
  }

  /** `re.search(open + '(.*?)' + close, s, re.IGNORECASE).group(1)`. */
  function Search(s: string, open: string, close: string): Option<string> {
    match MatchFrom(s, open, close, 0)
    case None => None
    case Some((p, q)) => Some(s[p + |open|..q])
  }

  /** The `<title>` of an HTML text. */
  function TitleSearch(s: string): Option<string> {
    Search(s, OpenTag, CloseTag)
  }

  /** The match Python reports: the leftmost start, and from it the shortest
      group. */
  ghost predicate Earliest(s: string, open: string, close: string, p: nat, q: nat) {
    Hit(s, open, close, p, q)
    && (forall p': nat, q': nat :: p' < p ==> !Hit(s, open, close, p', q'))
    && (forall q': nat :: q' < q ==> !Hit(s, open, close, p, q'))
  }

  lemma {:induction false} CloseFromSpec(s: string, close: string, q: nat)
    ensures CloseFrom(s, close, q).Some? ==>
      (forall i :: q <= i < CloseFrom(s, close, q).value ==> !MatchesAt(s, i, close))
    ensures CloseFrom(s, close, q).None? ==>
      forall c: nat :: q <= c && MatchesAt(s, c, close) ==> '\n' in s[q..c]
    decreases |s| - q
  {
    if !MatchesAt(s, q, close) && q < |s| && s[q] != '\n' {
      CloseFromSpec(s, close, q + 1);
      if CloseFrom(s, close, q).None? {
        forall c: nat | q <= c && MatchesAt(s, c, close)
          ensures '\n' in s[q..c]
        {
          assert c != q;
          assert s[q + 1..c] == s[q..c][1..];
        }
      }
    }
  }

  /** From a start where the opening literal matches, the first closing one
      on the same line ends the shortest group. */
  lemma ShortestGroup(s: string, open: string, close: string, p: nat)
    requires CloseFrom(s, close, p + |open|).Some?
    ensures forall q': nat :: q' < CloseFrom(s, close, p + |open|).value ==> !Hit(s, open, close, p, q')
  {
    var o := p + |open|;
    CloseFromSpec(s, close, o);
    forall q': nat | q' < CloseFrom(s, close, o).value
      ensures !Hit(s, open, close, p, q')
    {
      if o <= q' {
        assert !MatchesAt(s, q', close);
      }
    }
  }

  /** A start the search passes over has no match. */
  lemma NoHitAt(s: string, open: string, close: string, p: nat)
    requires !(MatchesAt(s, p, open) && CloseFrom(s, close, p + |open|).Some?)
    ensures forall q: nat :: !Hit(s, open, close, p, q)
  {
    var o := p + |open|;
    CloseFromSpec(s, close, o);
    forall q: nat
      ensures !Hit(s, open, close, p, q)
    {
      if MatchesAt(s, p, open) && o <= q && MatchesAt(s, q, close) {
        assert '\n' in s[o..q];
      }
    }
  }

  lemma {:induction false} MatchFromSpec(s: string, open: string, close: string, p0: nat)
    ensures MatchFrom(s, open, close, p0).Some? ==>
      (forall p': nat, q': nat :: p0 <= p' < MatchFrom(s, open, close, p0).value.0 ==> !Hit(s, open, close, p', q'))
    ensures MatchFrom(s, open, close, p0).Some? ==>
      (forall q': nat :: q' < MatchFrom(s, open, close, p0).value.1 ==>
         !Hit(s, open, close, MatchFrom(s, open, close, p0).value.0, q'))
    ensures MatchFrom(s, open, close, p0).None? ==> forall p: nat, q: nat :: p0 <= p ==> !Hit(s, open, close, p, q)
    decreases |s| - p0
  {
    if p0 <= |s| {
      if MatchesAt(s, p0, open) && CloseFrom(s, close, p0 + |open|).Some? {
        ShortestGroup(s, open, close, p0);
      } else {
        MatchFromSpec(s, open, close, p0 + 1);
        NoHitAt(s, open, close, p0);
      }
    }
  }

  /** The search yields the group of Python's match: it fails exactly when
      no `open…close` lies on one line, and otherwise yields the group of
      the leftmost, then shortest, match. */
  lemma SearchSpec(s: string, open: string, close: string)
    ensures Search(s, open, close).None? <==> forall p: nat, q: nat :: !Hit(s, open, close, p, q)
    ensures forall p: nat, q: nat :: Earliest(s, open, close, p, q) ==>
      Search(s, open, close) == Some(s[p + |open|..q])
  {
    MatchFromSpec(s, open, close, 0);
    match MatchFrom(s, open, close, 0)
    case None =>
    case Some((p1, q1)) =>
      assert Hit(s, open, close, p1, q1);
      forall p: nat, q: nat | Earliest(s, open, close, p, q)
        ensures Search(s, open, close) == Some(s[p + |open|..q])
      {
        assert p1 <= p;
        assert p <= p1;
        assert q1 <= q;
        assert q <= q1;
      }
  }

  /** The group found never spans a line break. */
  lemma SearchOneLine(s: string, open: string, close: string)
    ensures Search(s, open, close).Some? ==> '\n' !in Search(s, open, close).value
  {
    if Search(s, open, close).Some? {
      var t := Search(s, open, close).value;
      var (p, q) := MatchFrom(s, open, close, 0).value;
      assert forall k :: 0 <= k < |t| ==> t[k] == s[p + |open| + k];
    }
  }

  /** For the title: no `<title>…</title>` on one line gives no title, and
      otherwise the title is the group of the leftmost, shortest match. */
  lemma TitleSearchSpec(s: string)
    ensures TitleSearch(s).None? <==> forall p: nat, q: nat :: !Hit(s, OpenTag, CloseTag, p, q)
    ensures forall p: nat, q: nat :: Earliest(s, OpenTag, CloseTag, p, q) ==>
      TitleSearch(s) == Some(s[p + 7..q])
    ensures TitleSearch(s).Some? ==> '\n' !in TitleSearch(s).value
  {
    SearchSpec(s, OpenTag, CloseTag);
    SearchOneLine(s, OpenTag, CloseTag);
  }

  // ---------------------------------------------------------------------
  // re.sub(r'<[^>]*>', ' ', text)

  /** No '<' is followed, anywhere later, by a '>'. */
  predicate NoTag(s: string) {
    forall i, j :: 0 <= i < j < |s| && s[i] == '<' ==> s[j] != '>'
  }

  /** Each '<' that a later '>' closes is replaced, together with everything
      up to the first such '>', by one space; other characters stay. */
  function StripTags(s: string): (r: string)
    decreases |s|
  {
    if s == [] then []
    else if s[0] == '<' && '>' in s[1..] then [' '] + StripTags(s[IndexOf(s[1..], '>') + 2..])
    else [s[0]] + StripTags(s[1..])
  }

  /** Text without a tag passes through unchanged. */
  lemma {:induction false} StripTagsKeeps(s: string)
    requires NoTag(s)
    ensures StripTags(s) == s
    decreases |s|
  {
    if s != [] {
      if s[0] == '<' {
        forall j | 0 <= j < |s| - 1
          ensures s[1..][j] != '>'
        {
          assert s[j + 1] != '>';
        }
      }
      StripTagsKeeps(s[1..]);
    }
  }

  /** After the substitution no '<' is followed by a '>'. */
  lemma {:induction false} StripTagsNoTag(s: string)
    ensures NoTag(StripTags(s))
    decreases |s|
  {
    if s != [] {
      var r := StripTags(s);
      if s[0] == '<' && '>' in s[1..] {
        var rest := StripTags(s[IndexOf(s[1..], '>') + 2..]);
        StripTagsNoTag(s[IndexOf(s[1..], '>') + 2..]);
        assert forall k :: 0 < k < |r| ==> r[k] == rest[k - 1];
      } else {
        var rest := StripTags(s[1..]);
        StripTagsNoTag(s[1..]);
        assert forall k :: 0 < k < |r| ==> r[k] == rest[k - 1];
        if s[0] == '<' {
          assert NoTag(s[1..]);
          StripTagsKeeps(s[1..]);
          assert '>' !in rest;
        }
      }
    }
  }

  /** Stripping twice is stripping once. */
  lemma StripTagsIdempotent(s: string)
    ensures StripTags(StripTags(s)) == StripTags(s)
  {
    StripTagsNoTag(s);
    StripTagsKeeps(StripTags(s));
  }

  // ---------------------------------------------------------------------
  // re.sub(r'\s+', ' ', text).strip()

  /** Every run of whitespace becomes one space. */
  function Collapse(s: string): (r: string)
    decreases |s|
  {
    if s == [] then []
    else if IsSpace(s[0]) then [' '] + Collapse(StripLeft(s[1..]))
    else [s[0]] + Collapse(s[1..])
  }

  /** `re.sub(r'\s+', ' ', text).strip()`. */
  function Normalize(s: string): string {
    Strip(Collapse(s))
  }

  /** Whitespace only as single ' ' characters. */
  predicate SingleSpaced(t: string) {
    (forall i :: 0 <= i < |t| && IsSpace(t[i]) ==> t[i] == ' ')
    && (forall i :: 0 < i < |t| && IsSpace(t[i]) ==> !IsSpace(t[i - 1]))
  }

  /** Single-spaced, and neither starting nor ending with whitespace. */
  predicate Normalized(t: string) {
    SingleSpaced(t) && (t == [] || (!IsSpace(t[0]) && !IsSpace(t[|t| - 1])))
  }

  /** The characters that are not whitespace, in order. */
  function NonSpace(s: string): string {
    if s == [] then [] else (if IsSpace(s[0]) then [] else [s[0]]) + NonSpace(s[1..])
  }

  lemma {:induction false} CollapseHead(s: string)
    requires s != []
    ensures Collapse(s) != [] && Collapse(s)[0] == if IsSpace(s[0]) then ' ' else s[0]
  {
  }

  lemma {:induction false} CollapseSpaced(s: string)
    ensures SingleSpaced(Collapse(s))
    decreases |s|
  {
    if s != [] {
      var r := Collapse(s);
      if IsSpace(s[0]) {
        var t := StripLeft(s[1..]);
        StripLeftSpec(s[1..]);
        CollapseSpaced(t);
        if t != [] {
          CollapseHead(t);
        }
        assert forall k :: 0 < k < |r| ==> r[k] == Collapse(t)[k - 1];
      } else {
        CollapseSpaced(s[1..]);
        assert forall k :: 0 < k < |r| ==> r[k] == Collapse(s[1..])[k - 1];
      }
    }
  }

  lemma SingleSpacedSlice(t: string, a: nat, b: nat)
    requires a <= b <= |t| && SingleSpaced(t)
    ensures SingleSpaced(t[a..b])
  {
    var u := t[a..b];
    assert forall i :: 0 <= i < |u| ==> u[i] == t[a + i];
  }

  /** The result is single-spaced and trimmed. */
  lemma NormalizeNormalized(s: string)
    ensures Normalized(Normalize(s))
  {
    var c := Collapse(s);
    CollapseSpaced(s);
    var k := |c| - |StripLeft(c)|;
    StripIsSlice(c, k);
    SingleSpacedSlice(c, k, k + |Strip(c)|);
    StripEnds(c);
  }

  lemma {:induction false} CollapseKeeps(t: string)
    requires SingleSpaced(t)
    ensures Collapse(t) == t
    decreases |t|
  {
    if t != [] {
      assert SingleSpaced(t[1..]) by { SingleSpacedSlice(t, 1, |t|); }
      CollapseKeeps(t[1..]);
      if IsSpace(t[0]) {
        assert t[1..] == [] || !IsSpace(t[1]);
        assert StripLeft(t[1..]) == t[1..];
      }
    }
  }

  lemma StripKeeps(t: string)
    requires t == [] || (!IsSpace(t[0]) && !IsSpace(t[|t| - 1]))
    ensures Strip(t) == t
  {
  }

  /** Normalised text is left alone, so normalising twice is normalising
      once. */
  lemma NormalizeIdempotent(s: string)
    ensures Normalize(Normalize(s)) == Normalize(s)
  {
    var t := Normalize(s);
    NormalizeNormalized(s);
    CollapseKeeps(t);
    StripKeeps(t);
  }

  lemma {:induction false} NonSpaceConcat(a: string, b: string)
    ensures NonSpace(a + b) == NonSpace(a) + NonSpace(b)
  {
    if a != [] {
      var head := if IsSpace(a[0]) then [] else [a[0]];
      assert (a + b)[0] == a[0] && (a + b)[1..] == a[1..] + b;
      NonSpaceConcat(a[1..], b);
      calc {
        NonSpace(a + b);
        head + NonSpace(a[1..] + b);
        head + (NonSpace(a[1..]) + NonSpace(b));
        (head + NonSpace(a[1..])) + NonSpace(b);
      }
    } else {
      assert a + b == b;
    }
  }

  lemma {:induction false} NonSpaceBlank(s: string)
    requires Blank(s)
    ensures NonSpace(s) == []
  {
    if s != [] {
      NonSpaceBlank(s[1..]);
    }
  }

  lemma NonSpaceStripLeft(s: string)
    ensures NonSpace(StripLeft(s)) == NonSpace(s)
  {
    StripLeftSpec(s);
    var k := |s| - |StripLeft(s)|;
    assert s == s[..k] + s[k..];
    NonSpaceConcat(s[..k], s[k..]);
    NonSpaceBlank(s[..k]);
  }

  lemma {:induction false} NonSpaceCollapse(s: string)
    ensures NonSpace(Collapse(s)) == NonSpace(s)
    decreases |s|
  {
    if s != [] {
      if IsSpace(s[0]) {
        var t := StripLeft(s[1..]);
        NonSpaceCollapse(t);
        NonSpaceStripLeft(s[1..]);
        assert ([' '] + Collapse(t))[1..] == Collapse(t);
      } else {
        NonSpaceCollapse(s[1..]);
        assert ([s[0]] + Collapse(s[1..]))[1..] == Collapse(s[1..]);
      }
    }
  }

  /** Normalising only changes whitespace: the other characters are kept,
      in order. */
  lemma NormalizeKeepsText(s: string)
    ensures NonSpace(Normalize(s)) == NonSpace(s)
  {
    var c := Collapse(s);
    NonSpaceCollapse(s);
    var k := |c| - |StripLeft(c)|;
    var m := |Strip(c)|;
    StripIsSlice(c, k);
    assert c == c[..k] + c[k..k + m] + c[k + m..];
    NonSpaceConcat(c[..k] + c[k..k + m], c[k + m..]);
    NonSpaceConcat(c[..k], c[k..k + m]);
    NonSpaceBlank(c[..k]);
    NonSpaceBlank(c[k + m..]);
  }

  lemma {:induction false} NonSpaceHas(s: string, x: char)
    requires !IsSpace(x)
    ensures x in NonSpace(s) <==> x in s
  {
    if s != [] {
      NonSpaceHas(s[1..], x);
      assert s == [s[0]] + s[1..];
    }
  }

  // ---------------------------------------------------------------------
  // re.sub(r'^.*?\\rtf1.*?{', '', rtf, flags=re.DOTALL)

  const RtfMarker := "\\rtf1"

  predicate MarkerAt(s: string, i: nat) {
    i + |RtfMarker| <= |s| && s[i..i + |RtfMarker|] == RtfMarker
  }

  /** The first occurrence of the marker at or after `i`. */
  function FindMarker(s: string, i: nat): (r: Option<nat>)
    ensures r.Some? ==> i <= r.value && MarkerAt(s, r.value)
    decreases |s| - i
  {
    if i + |RtfMarker| > |s| then None
    else if MarkerAt(s, i) then Some(i)
    else FindMarker(s, i + 1)
  }

  lemma {:induction false} FindMarkerFirst(s: string, i: nat)
    ensures FindMarker(s, i).Some? ==> forall k :: i <= k < FindMarker(s, i).value ==> !MarkerAt(s, k)
    ensures FindMarker(s, i).None? ==> forall k :: i <= k ==> !MarkerAt(s, k)
    decreases |s| - i
  {
    if i + |RtfMarker| <= |s| && !MarkerAt(s, i) {
      FindMarkerFirst(s, i + 1);
    }
  }

  /** The anchored, lazy pattern deletes everything from the start through
      the first '{' after the first `\rtf1`; if no '{' follows it, no later
      occurrence has one either and nothing is deleted. */
  function RemoveRtfHeader(s: string): (r: string)
    ensures |r| <= |s| && r == s[|s| - |r|..]
  {
    match FindMarker(s, 0)
    case None => s
    case Some(i) =>
      var after := s[i + |RtfMarker|..];
      if '{' in after then s[i + |RtfMarker| + IndexOf(after, '{') + 1..] else s
  }

  /** With the first marker at `i` and the first '{' after it at `j`, the
      text after `j` is what is left. */
  lemma RemoveRtfHeaderCuts(s: string, i: nat, j: nat)
    requires MarkerAt(s, i) && forall k :: 0 <= k < i ==> !MarkerAt(s, k)
    requires i + |RtfMarker| <= j < |s| && s[j] == '{'
    requires forall k :: i + |RtfMarker| <= k < j ==> s[k] != '{'
    ensures RemoveRtfHeader(s) == s[j + 1..]
  {
    FindMarkerFirst(s, 0);
    assert FindMarker(s, 0) == Some(i);
    var after := s[i + |RtfMarker|..];
    assert after[j - i - |RtfMarker|] == '{';
    IndexOfAt(after, '{', j - i - |RtfMarker|);
  }

  /** Without a '{' after any marker, the text is unchanged. */
  lemma RemoveRtfHeaderKeeps(s: string)
    requires forall i: nat, j :: MarkerAt(s, i) && i + |RtfMarker| <= j < |s| ==> s[j] != '{'
    ensures RemoveRtfHeader(s) == s
  {
    if FindMarker(s, 0).Some? {
      var i := FindMarker(s, 0).value;
      var after := s[i + |RtfMarker|..];
      forall k | 0 <= k < |after|
        ensures after[k] != '{'
      {
        assert after[k] == s[i + |RtfMarker| + k];
      }
    }
  }

  // ---------------------------------------------------------------------
  // re.sub(r'\\[a-z0-9]+', ' ', text)

  predicate WordChar(c: char) {
    'a' <= c <= 'z' || '0' <= c <= '9'
  }

  /** The greedy `[a-z0-9]+`: drop the run of word characters. */
  function SkipWord(s: string): (r: string)
    ensures |r| <= |s|
  {
    if s != [] && WordChar(s[0]) then SkipWord(s[1..]) else s
  }

  /** Each backslash followed by a run of lower-case letters and digits
      becomes one space. */
  function ControlWords(s: string): (r: string)
    decreases |s|
  {
    if |s| >= 2 && s[0] == '\\' && WordChar(s[1]) then [' '] + ControlWords(SkipWord(s[2..]))
    else if s == [] then []
    else [s[0]] + ControlWords(s[1..])
  }

  /** No backslash is directly followed by a lower-case letter or digit. */
  predicate NoControlWord(s: string) {
    forall i :: 0 <= i < |s| - 1 && s[i] == '\\' ==> !WordChar(s[i + 1])
  }

  lemma ControlWordsHead(s: string)
    requires s != []
    ensures ControlWords(s) != []
    ensures ControlWords(s)[0] == ' ' || ControlWords(s)[0] == s[0]
  {
  }

  lemma {:induction false} ControlWordsClean(s: string)
    ensures NoControlWord(ControlWords(s))
    decreases |s|
  {
    var r := ControlWords(s);
    if |s| >= 2 && s[0] == '\\' && WordChar(s[1]) {
      var rest := ControlWords(SkipWord(s[2..]));
      ControlWordsClean(SkipWord(s[2..]));
      assert forall k :: 0 < k < |r| ==> r[k] == rest[k - 1];
    } else if s != [] {
      var rest := ControlWords(s[1..]);
      ControlWordsClean(s[1..]);
      assert forall k :: 0 < k < |r| ==> r[k] == rest[k - 1];
      if s[1..] != [] {
        ControlWordsHead(s[1..]);
      }
    }
  }

  /** Text without control words passes through unchanged. */
  lemma {:induction false} ControlWordsKeeps(s: string)
    requires NoControlWord(s)
    ensures ControlWords(s) == s
    decreases |s|
  {
    if s != [] {
      assert |s| >= 2 && s[0] == '\\' ==> !WordChar(s[1]);
      assert NoControlWord(s[1..]) by {
        forall i | 0 <= i < |s[1..]| - 1 && s[1..][i] == '\\'
          ensures !WordChar(s[1..][i + 1])
        {
          assert s[i + 1] == '\\';
        }
      }
      ControlWordsKeeps(s[1..]);
    }
  }

  lemma ControlWordsIdempotent(s: string)
    ensures ControlWords(ControlWords(s)) == ControlWords(s)
  {
    ControlWordsClean(s);
    ControlWordsKeeps(ControlWords(s));
  }

  // ---------------------------------------------------------------------
  // re.sub(r'}', '', text)

  function RemoveBraces(s: string): (r: string)
    ensures |r| <= |s|
  {
    if s == [] then [] else (if s[0] == '}' then [] else [s[0]]) + RemoveBraces(s[1..])
  }

  /** Exactly the closing braces are removed: the result holds every other
      character as often as the input does, and no brace. */
  lemma {:induction false} RemoveBracesCounts(s: string)
    ensures multiset(RemoveBraces(s)) == multiset(s)['}' := 0]
  {
    if s != [] {
      RemoveBracesCounts(s[1..]);
      assert s == [s[0]] + s[1..];
      assert multiset(s) == multiset([s[0]]) + multiset(s[1..]);
    }
  }

  lemma BracesGone(s: string)
    ensures '}' !in RemoveBraces(s)
  {
    RemoveBracesCounts(s);
    assert multiset(RemoveBraces(s))['}'] == 0;
  }

  /** Braces are removed after control words, so a brace between a
      backslash and a word lets a control word through: `\}a` comes out
      as `\a`. */
  lemma BraceRejoinsControlWord(w: char)
    requires WordChar(w)
    ensures RemoveBraces(ControlWords(['\\', '}', w])) == ['\\', w]
    ensures !NoControlWord(RemoveBraces(ControlWords(['\\', '}', w])))
  {
    var s := ['\\', '}', w];
    assert ControlWords(s[2..]) == [w] by {
      assert s[2..][1..] == [];
    }
    assert ControlWords(s[1..]) == ['}', w] by {
      assert s[1..][1..] == s[2..];
    }
    assert ControlWords(s) == s;
    assert RemoveBraces(s) == ['\\', w] by {
      assert RemoveBraces([w]) == [w] by {
        assert [w][1..] == [];
      }
      assert RemoveBraces(s[1..]) == [w] by {
        assert s[1..][1..] == [w];
      }
    }
    var t := ['\\', w];
    assert t[0] == '\\' && WordChar(t[1]);
  }

  // ---------------------------------------------------------------------
  // The two text pipelines

  /** The text `html_to_pdf` draws, before Latin-1 degradation. */
  function HtmlText(html: string): string {
    Normalize(StripTags(html))
  }

  /** The text `rtf_to_pdf` draws, before Latin-1 degradation. */
  function RtfText(rtf: string): string {
    Normalize(RemoveBraces(ControlWords(RemoveRtfHeader(rtf))))
  }

  /** The RTF text holds no closing brace and is normalised. */
  lemma RtfTextClean(rtf: string)
    ensures '}' !in RtfText(rtf)
    ensures Normalized(RtfText(rtf))
  {
    var b := RemoveBraces(ControlWords(RemoveRtfHeader(rtf)));
    BracesGone(ControlWords(RemoveRtfHeader(rtf)));
    NormalizeKeepsText(b);
    NonSpaceHas(b, '}');
    NonSpaceHas(RtfText(rtf), '}');
    NormalizeNormalized(b);
  }

  /** Normalising keeps the characters that are not whitespace, so a '<'
      before a '>' in the HTML text was there after tag stripping too: the
      drawn text is normalised and, character for character, the stripped
      text without its whitespace. */
  lemma HtmlTextClean(html: string)
    ensures Normalized(HtmlText(html))
    ensures NonSpace(HtmlText(html)) == NonSpace(StripTags(html))
    ensures NoTag(StripTags(html))
  {
    NormalizeNormalized(StripTags(html));
    NormalizeKeepsText(StripTags(html));
    StripTagsNoTag(html);
  }
}
