/** Text canonicalisation used by the documentation extractor and the ranker:
    Python's whitespace set, `str.split()`, `str.join`, `str.strip()`,
    `str.lower()` (ASCII part), substring tests, and the two cleaners
    `clean_text` and `clean_code`.  Unicode NFKC normalisation is not
    modelled: the cleaners take it as a parameter `nfkc`. */
module Text {

  // ---------------------------------------------------------------------
  // Whitespace and words
  // ---------------------------------------------------------------------

  /** The characters for which Python's `str.isspace()` holds; these are the
      separators of `str.split()` and the characters `str.strip()` removes. */
  predicate IsSpace(c: char) {
    || c == ' ' || c == '\t' || c == '\n' || c == '\r'
    || c == '\U{000B}' || c == '\U{000C}'
    || ('\U{001C}' <= c <= '\U{001F}')
    || c == '\U{0085}' || c == '\U{00A0}' || c == '\U{1680}'
    || ('\U{2000}' <= c <= '\U{200A}')
    || c == '\U{2028}' || c == '\U{2029}' || c == '\U{202F}'
    || c == '\U{205F}' || c == '\U{3000}'
  }

  predicate AllSpace(s: string) {
    forall i :: 0 <= i < |s| ==> IsSpace(s[i])
  }

  /** A token of `str.split()`: non-empty and free of whitespace. */
  predicate IsWord(w: string) {
    |w| > 0 && forall i :: 0 <= i < |w| ==> !IsSpace(w[i])
  }

  /** Length of the run of non-whitespace characters that starts `s`. */
  function WordLen(s: string): (n: nat)
    ensures n <= |s|
    ensures forall i :: 0 <= i < n ==> !IsSpace(s[i])
    ensures n < |s| ==> IsSpace(s[n])
  {
    if |s| == 0 || IsSpace(s[0]) then 0 else 1 + WordLen(s[1..])
  }

  /** Python's `s.split()` with no separator argument. */
  function Words(s: string): seq<string>
    decreases |s|
  {
    if |s| == 0 then []
    else if IsSpace(s[0]) then Words(s[1..])
    else
      var n := WordLen(s);
      [s[..n]] + Words(s[n..])
  }

  /** `split()` yields non-empty tokens free of whitespace, and yields none
      exactly when the string is all whitespace. */
  lemma {:induction false} WordsShape(s: string)
    ensures forall k :: 0 <= k < |Words(s)| ==> IsWord(Words(s)[k])
    ensures |Words(s)| == 0 <==> AllSpace(s)
    decreases |s|
  {
    if |s| == 0 {
    } else if IsSpace(s[0]) {
      WordsShape(s[1..]);
      if AllSpace(s[1..]) {
        assert forall i :: 1 <= i < |s| ==> s[i] == s[1..][i - 1];
      }
    } else {
      var n := WordLen(s);
      WordsShape(s[n..]);
      var ws := Words(s);
      assert ws == [s[..n]] + Words(s[n..]);
      assert IsWord(s[..n]);
      forall k | 0 <= k < |ws|
        ensures IsWord(ws[k])
      {
        if k > 0 {
          assert ws[k] == Words(s[n..])[k - 1];
        }
      }
    }
  }

  /** Python's `sep.join(items)`. */
  function Join(items: seq<string>, sep: string): string {
    if |items| == 0 then ""
    else if |items| == 1 then items[0]
    else items[0] + sep + Join(items[1..], sep)
  }

  /** A string as `' '.join(...)` of `split()` tokens leaves it: the only
      whitespace is the plain space, there is none at either end, and no two
      spaces are adjacent. */
  predicate Canonical(s: string) {
    && (forall i :: 0 <= i < |s| && IsSpace(s[i]) ==> s[i] == ' ')
    && (|s| > 0 ==> !IsSpace(s[0]) && !IsSpace(s[|s| - 1]))
    && (forall i :: 0 <= i < |s| - 1 && s[i] == ' ' ==> s[i + 1] != ' ')
  }

  lemma {:induction false} WordLenAppend(w: string, t: string)
    requires forall i :: 0 <= i < |w| ==> !IsSpace(w[i])
    ensures WordLen(w + t) == |w| + WordLen(t)
    decreases |w|
  {
    if |w| == 0 {
      assert w + t == t;
    } else {
      assert (w + t)[1..] == w[1..] + t;
      WordLenAppend(w[1..], t);
    }
  }

  /** A token followed by nothing or by whitespace is split off whole. */
  lemma WordsOfWord(w: string, t: string)
    requires IsWord(w)
    requires |t| == 0 || IsSpace(t[0])
    ensures Words(w + t) == [w] + Words(t)
  {
    var s := w + t;
    WordLenAppend(w, t);
    assert s[0] == w[0];
    assert s[..|w|] == w;
    assert s[|w|..] == t;
  }

  /** Joining split tokens with single spaces and splitting again gives the
      tokens back. */
  lemma {:induction false} JoinWords(ws: seq<string>)
    requires forall k :: 0 <= k < |ws| ==> IsWord(ws[k])
    ensures Words(Join(ws, " ")) == ws
    decreases |ws|
  {
    if |ws| == 1 {
      WordsOfWord(ws[0], []);
      assert ws[0] + [] == ws[0];
    } else if |ws| > 1 {
      var w := ws[0];
      var rest := Join(ws[1..], " ");
      var sr := " " + rest;
      assert Join(ws, " ") == w + sr;
      WordsOfWord(w, sr);
      assert sr[1..] == rest;
      assert Words(sr) == Words(rest);
      JoinWords(ws[1..]);
      assert ws == [w] + ws[1..];
    }
  }

  /** A space-join of tokens is canonical, and non-empty when there is a token. */
  lemma {:induction false} JoinCanonical(ws: seq<string>)
    requires forall k :: 0 <= k < |ws| ==> IsWord(ws[k])
    ensures Canonical(Join(ws, " "))
    ensures |ws| > 0 ==> |Join(ws, " ")| > 0
    decreases |ws|
  {
    if |ws| > 1 {
      var w := ws[0];
      var rest := Join(ws[1..], " ");
      JoinCanonical(ws[1..]);
      var s := w + " " + rest;
      assert s == Join(ws, " ");
      assert |rest| > 0;
      forall i | 0 <= i < |s| && IsSpace(s[i])
        ensures s[i] == ' '
      {
        if i > |w| {
          assert s[i] == rest[i - |w| - 1];
        }
      }
      forall i | 0 <= i < |s| - 1 && s[i] == ' '
        ensures s[i + 1] != ' '
      {
        if i > |w| {
          assert s[i] == rest[i - |w| - 1];
          assert s[i + 1] == rest[i - |w|];
        } else if i == |w| {
          assert s[i + 1] == rest[0];
        }
      }
      assert s[|s| - 1] == rest[|rest| - 1];
    }
  }

  /** A character property shared by every character of `s` is shared by
      every character of every token of `s`. */
  lemma {:induction false} WordsKeepChars(s: string, p: char -> bool)
    requires forall i :: 0 <= i < |s| ==> p(s[i])
    ensures forall k, i :: 0 <= k < |Words(s)| && 0 <= i < |Words(s)[k]| ==> p(Words(s)[k][i])
    decreases |s|
  {
    if |s| == 0 {
    } else if IsSpace(s[0]) {
      WordsKeepChars(s[1..], p);
    } else {
      var n := WordLen(s);
      WordsKeepChars(s[n..], p);
      var ws := Words(s);
      assert ws == [s[..n]] + Words(s[n..]);
      forall k, i | 0 <= k < |ws| && 0 <= i < |ws[k]|
        ensures p(ws[k][i])
      {
        if k > 0 {
          assert ws[k] == Words(s[n..])[k - 1];
        }
      }
    }
  }

  /** Every character of a space-join is a space or a character of one of the items. */
  lemma {:induction false} JoinKeepChars(ws: seq<string>, p: char -> bool)
    requires p(' ')
    requires forall k, i :: 0 <= k < |ws| && 0 <= i < |ws[k]| ==> p(ws[k][i])
    ensures forall i :: 0 <= i < |Join(ws, " ")| ==> p(Join(ws, " ")[i])
    decreases |ws|
  {
    if |ws| >= 2 {
      JoinKeepChars(ws[1..], p);
      var w := ws[0];
      var rest := Join(ws[1..], " ");
      assert Join(ws, " ") == w + " " + rest;
      forall i | 0 <= i < |Join(ws, " ")|
        ensures p(Join(ws, " ")[i])
      {
        if i < |w| {
          assert p(ws[0][i]);
        } else if i > |w| {
          assert Join(ws, " ")[i] == rest[i - |w| - 1];
        }
      }
    } else if |ws| == 1 {
      assert forall i :: 0 <= i < |ws[0]| ==> p(ws[0][i]);
    }
  }

  // ---------------------------------------------------------------------
  // The last token, read from the right
  // ---------------------------------------------------------------------

  /** Length of the run of non-whitespace characters that ends `t`. */
  function SuffixWordLen(t: string): (n: nat)
    ensures n <= |t|
    ensures forall i :: |t| - n <= i < |t| ==> !IsSpace(t[i])
    ensures n < |t| ==> IsSpace(t[|t| - n - 1])
  {
    if |t| == 0 || IsSpace(t[|t| - 1]) then 0 else 1 + SuffixWordLen(t[..|t| - 1])
  }

  /** The last whitespace-delimited token of `s`, found by scanning from the
      right end instead of splitting the whole string. */
  function TrailingWord(s: string): (w: string)
    ensures !AllSpace(s) ==> IsWord(w)
  {
    var t := StripRight(s);
    StripRightShape(s);
    assert |t| > 0 || s[|t|..] == s;
    t[|t| - SuffixWordLen(t)..]
  }

  lemma {:induction false} WordLenPrefix(x: string, y: string)
    requires WordLen(x) < |x|
    ensures WordLen(x + y) == WordLen(x)
    decreases |x|
  {
    if !IsSpace(x[0]) {
      assert (x + y)[1..] == x[1..] + y;
      WordLenPrefix(x[1..], y);
    }
  }

  /** Splitting distributes over a concatenation whose left part is empty or
      ends in whitespace. */
  lemma {:induction false} WordsAppend(x: string, y: string)
    requires |x| == 0 || IsSpace(x[|x| - 1])
    ensures Words(x + y) == Words(x) + Words(y)
    decreases |x|
  {
    if |x| == 0 {
      assert x + y == y;
    } else if IsSpace(x[0]) {
      assert (x + y)[1..] == x[1..] + y;
      WordsAppend(x[1..], y);
    } else {
      var n := WordLen(x);
      assert n < |x|;
      WordLenPrefix(x, y);
      assert (x + y)[..n] == x[..n];
      assert (x + y)[n..] == x[n..] + y;
      WordsAppend(x[n..], y);
    }
  }

  /** A single token followed only by whitespace splits into that token. */
  lemma WordThenSpaces(w: string, q: string)
    requires IsWord(w) && AllSpace(q)
    ensures Words(w + q) == [w]
  {
    WordLenAppend(w, q);
    WordsShape(q);
    assert WordLen(q) == 0;
    assert (w + q)[..|w|] == w;
    assert (w + q)[|w|..] == q;
  }

  /** `s.split()[-1]` is the token found by scanning from the right. */
  lemma LastWord(s: string)
    requires !AllSpace(s)
    ensures |Words(s)| > 0
    ensures Words(s)[|Words(s)| - 1] == TrailingWord(s)
  {
    var t := StripRight(s);
    StripRightShape(s);
    var q := s[|t|..];
    assert s == t + q;
    var n := SuffixWordLen(t);
    var w := TrailingWord(s);
    assert w == t[|t| - n..];
    var p := t[..|t| - n];
    assert t == p + w;
    assert s == p + (w + q);
    WordsAppend(p, w + q);
    WordThenSpaces(w, q);
    WordsShape(p);
  }

  // ---------------------------------------------------------------------
  // strip()
  // ---------------------------------------------------------------------

  /** Python's `s.lstrip()`. */
  function StripLeft(s: string): string {
    if |s| > 0 && IsSpace(s[0]) then StripLeft(s[1..]) else s
  }

  /** `lstrip()` drops leading whitespace and nothing else: the result is a
      suffix of `s`, everything removed is whitespace, and the result does
      not start with whitespace. */
  lemma {:induction false} StripLeftShape(s: string)
    ensures var r := StripLeft(s);
            && |r| <= |s| && r == s[|s| - |r|..]
            && AllSpace(s[..|s| - |r|])
            && (|r| > 0 ==> !IsSpace(r[0]))
    decreases |s|
  {
    if |s| > 0 && IsSpace(s[0]) {
      StripLeftShape(s[1..]);
      var r := StripLeft(s[1..]);
      assert s[..|s| - |r|] == [s[0]] + s[1..][..|s| - 1 - |r|];
    }
  }

  /** Python's `s.rstrip()`. */
  function StripRight(s: string): string {
    if |s| > 0 && IsSpace(s[|s| - 1]) then StripRight(s[..|s| - 1]) else s
  }

  /** `rstrip()` drops trailing whitespace and nothing else: the result is a
      prefix of `s`, everything removed is whitespace, and the result does
      not end with whitespace. */
  lemma {:induction false} StripRightShape(s: string)
    ensures var r := StripRight(s);
            && |r| <= |s| && r == s[..|r|]
            && AllSpace(s[|r|..])
            && (|r| > 0 ==> !IsSpace(r[|r| - 1]))
    decreases |s|
  {
    if |s| > 0 && IsSpace(s[|s| - 1]) {
      StripRightShape(s[..|s| - 1]);
      var r := StripRight(s[..|s| - 1]);
      assert s[|r|..] == s[..|s| - 1][|r|..] + [s[|s| - 1]];
    }
  }

  /** Number of characters `strip()` removes from the front of `s`. */
  function StripOffset(s: string): nat {
    var l := StripLeft(s);
    StripLeftShape(s);
    |s| - |l|
  }

  /** Python's `s.strip()`. */
  function Strip(s: string): string {
    StripRight(StripLeft(s))
  }

  /** `strip()` leaves the slice of `s` between its leading and trailing
      whitespace: everything in between, newlines included, is kept, the
      result has no whitespace at either end, and a string that already has
      none at its ends is returned unchanged. */
  lemma StripShape(s: string)
    ensures var r := Strip(s);
            && StripOffset(s) + |r| <= |s| && r == s[StripOffset(s)..StripOffset(s) + |r|]
            && AllSpace(s[..StripOffset(s)]) && AllSpace(s[StripOffset(s) + |r|..])
            && (|r| > 0 ==> !IsSpace(r[0]) && !IsSpace(r[|r| - 1]))
            && ((|s| == 0 || (!IsSpace(s[0]) && !IsSpace(s[|s| - 1]))) ==> r == s)
  {
    var l := StripLeft(s);
    var r := StripRight(l);
    StripLeftShape(s);
    StripRightShape(l);
    var a := StripOffset(s);
    SliceOfSuffix(s, a, l, r);
    if |s| > 0 && !IsSpace(s[0]) && !IsSpace(s[|s| - 1]) {
      assert l == s;
    }
  }

  /** Slicing a suffix of `s` is slicing `s` at shifted indices. */
  lemma SliceOfSuffix(s: string, a: nat, l: string, r: string)
    requires a <= |s| && l == s[a..] && |r| <= |l| && r == l[..|r|]
    ensures r == s[a..a + |r|]
    ensures s[a + |r|..] == l[|r|..]
  {
  }

  // ---------------------------------------------------------------------
  // Lower-casing and substring tests
  // ---------------------------------------------------------------------

  /** `str.lower()` on one character, for the ASCII letters. */
  function LowerChar(c: char): char {
    if 'A' <= c <= 'Z' then (c as int + 32) as char else c
  }

  /** `str.lower()`, ASCII letters only (see README). */
  function Lower(s: string): (r: string)
    ensures |r| == |s|
    ensures forall i :: 0 <= i < |s| ==> r[i] == LowerChar(s[i])
  {
    if |s| == 0 then [] else [LowerChar(s[0])] + Lower(s[1..])
  }

  predicate StartsWith(s: string, prefix: string) {
    |prefix| <= |s| && s[..|prefix|] == prefix
  }

  /** Python's `needle in hay` for strings. */
  predicate Contains(hay: string, needle: string) {
    StartsWith(hay, needle) || (|hay| > 0 && Contains(hay[1..], needle))
  }

  /** `needle` occurs in `hay` starting at offset `i`. */
  predicate OccursAt(hay: string, needle: string, i: nat) {
    i + |needle| <= |hay| && hay[i..i + |needle|] == needle
  }

  /** An occurrence at any offset is a containment. */
  lemma {:induction false} ContainsAt(hay: string, needle: string, i: nat)
    requires OccursAt(hay, needle, i)
    ensures Contains(hay, needle)
    decreases i
  {
    if i > 0 {
      assert hay[1..][i - 1..i - 1 + |needle|] == hay[i..i + |needle|];
      ContainsAt(hay[1..], needle, i - 1);
    }
  }

  /** A containment is an occurrence at some offset. */
  lemma {:induction false} ContainsWitness(hay: string, needle: string)
    requires Contains(hay, needle)
    ensures exists i: nat :: OccursAt(hay, needle, i)
    decreases |hay|
  {
    if !StartsWith(hay, needle) {
      ContainsWitness(hay[1..], needle);
      var j: nat :| OccursAt(hay[1..], needle, j);
      assert hay[1..][j..j + |needle|] == hay[j + 1..j + 1 + |needle|];
      assert OccursAt(hay, needle, j + 1);
    } else {
      assert OccursAt(hay, needle, 0);
    }
  }

  /** A slice of a slice is a slice at shifted indices. */
  lemma SliceOfSlice(s: string, a: nat, b: nat, c: nat, d: nat)
    requires a <= b <= |s| && c <= d <= b - a
    ensures s[a..b][c..d] == s[a + c..a + d]
  {
    forall k | 0 <= k < d - c ensures s[a..b][c..d][k] == s[a + c..a + d][k] {
    }
  }

  /** Past the leading space, the padded text is the text. */
  lemma PaddedSlice(text: string, i: nat, n: nat)
    requires i + n <= |text|
    ensures (" " + text + " ")[i + 1..i + 1 + n] == text[i..i + n]
  {
    var hay := " " + text + " ";
    forall k | i + 1 <= k < i + 1 + n ensures hay[k] == text[k - 1] {
    }
  }

  /** A whole-word occurrence, `" kw " in " text "`, is an occurrence of
      the word itself. */
  lemma PaddedContains(text: string, kw: string)
    requires Contains(" " + text + " ", " " + kw + " ")
    ensures Contains(text, kw)
  {
    var hay, needle := " " + text + " ", " " + kw + " ";
    ContainsWitness(hay, needle);
    var i: nat :| OccursAt(hay, needle, i);
    PaddedSlice(text, i, |kw|);
    SliceOfSlice(hay, i, i + |needle|, 1, |kw| + 1);
    assert needle[1..|kw| + 1] == kw;
    ContainsAt(text, kw, i);
  }

  /** Decimal rendering of a natural number, as Python's `str(n)`. */
  function NatToString(n: nat): (r: string)
    ensures |r| > 0
    ensures forall i :: 0 <= i < |r| ==> '0' <= r[i] <= '9'
  {
    var d := ['0' + (n % 10) as char];
    if n < 10 then d else NatToString(n / 10) + d
  }

  // ---------------------------------------------------------------------
  // clean_text and clean_code
  // ---------------------------------------------------------------------

  /** The characters `clean_text` rewrites: curly double and single quotes,
      the en dash, newline and tab. */
  predicate Rewritten(c: char) {
    c == '\U{201C}' || c == '\U{201D}' || c == '\U{2018}' || c == '\U{2019}'
    || c == '\U{2013}' || c == '\n' || c == '\t'
  }

  /** The replacement table of `clean_text`.  Replacement values are never
      themselves keys, so applying the table key by key (as the source does)
      equals this one-pass character map. */
  function SubstituteChar(c: char): (r: char)
    ensures !Rewritten(r)
    ensures !Rewritten(c) ==> r == c
    ensures (c == '\U{201C}' || c == '\U{201D}') ==> r == '"'
    ensures (c == '\U{2018}' || c == '\U{2019}') ==> r == '\''
    ensures c == '\U{2013}' ==> r == '-'
    ensures (c == '\n' || c == '\t') ==> r == ' '
  {
    if c == '\U{201C}' || c == '\U{201D}' then '"'
    else if c == '\U{2018}' || c == '\U{2019}' then '\''
    else if c == '\U{2013}' then '-'
    else if c == '\n' || c == '\t' then ' '
    else c
  }

  function Substitute(s: string): string {
    if |s| == 0 then [] else [SubstituteChar(s[0])] + Substitute(s[1..])
  }

  /** The replacement table is applied to every character and to nothing else. */
  lemma {:induction false} SubstituteShape(s: string)
    ensures |Substitute(s)| == |s|
    ensures forall i :: 0 <= i < |s| ==> Substitute(s)[i] == SubstituteChar(s[i])
    decreases |s|
  {
    if |s| > 0 {
      SubstituteShape(s[1..]);
    }
  }

  /** `clean_text`: normalise, apply the replacement table, collapse every
      whitespace run to one space and strip. */
  function CleanText(nfkc: string -> string, text: string): string {
    Strip(Join(Words(Substitute(nfkc(text))), " "))
  }

  /** The result of `clean_text` is canonical (no newline, tab or other
      whitespace but single interior spaces), holds none of the rewritten
      characters, has exactly the tokens of the substituted input, and is
      empty exactly when that input is all whitespace. */
  lemma CleanTextShape(nfkc: string -> string, text: string)
    ensures var r := CleanText(nfkc, text);
            && Canonical(r)
            && (forall i :: 0 <= i < |r| ==> r[i] != '\n' && r[i] != '\t')
            && (forall i :: 0 <= i < |r| ==> !Rewritten(r[i]))
            && Words(r) == Words(Substitute(nfkc(text)))
            && (|r| == 0 <==> AllSpace(Substitute(nfkc(text))))
  {
    var s := Substitute(nfkc(text));
    SubstituteShape(nfkc(text));
    var ws := Words(s);
    WordsShape(s);
    var joined := Join(ws, " ");
    JoinWords(ws);
    JoinCanonical(ws);
    WordsKeepChars(s, c => !Rewritten(c));
    JoinKeepChars(ws, c => !Rewritten(c));
    StripShape(joined);
  }

  function CountChar(c: char, s: string): nat {
    if |s| == 0 then 0 else (if s[0] == c then 1 else 0) + CountChar(c, s[1..])
  }

  /** `text.replace('\t', '    ')`, one character at a time. */
  function ExpandTabs(s: string): string {
    if |s| == 0 then []
    else (if s[0] == '\t' then "    " else [s[0]]) + ExpandTabs(s[1..])
  }

  /** No tab survives `replace('\t', '    ')`, every tab becomes four
      characters, every newline is kept, and text without tabs is unchanged. */
  lemma {:induction false} ExpandTabsShape(s: string)
    ensures var r := ExpandTabs(s);
            && (forall i :: 0 <= i < |r| ==> r[i] != '\t')
            && |r| == |s| + 3 * CountChar('\t', s)
            && CountChar('\n', r) == CountChar('\n', s)
            && (CountChar('\t', s) == 0 ==> r == s)
    decreases |s|
  {
    if |s| > 0 {
      ExpandTabsShape(s[1..]);
      var head := if s[0] == '\t' then "    " else [s[0]];
      var tail := ExpandTabs(s[1..]);
      CountCharAppend('\n', head, tail);
      CountCharAppend('\n', [s[0]], s[1..]);
      CountCharAppend('\t', [s[0]], s[1..]);
      if s[0] == '\t' {
        CountAbsent('\n', head);
      }
      assert s == [s[0]] + s[1..];
      var r := head + tail;
      forall i | 0 <= i < |r|
        ensures r[i] != '\t'
      {
        if i >= |head| {
          assert r[i] == tail[i - |head|];
        }
      }
    }
  }

  /** `replace` works piecewise: expanding a concatenation expands each
      part in place. */
  lemma {:induction false} ExpandTabsAppend(a: string, b: string)
    ensures ExpandTabs(a + b) == ExpandTabs(a) + ExpandTabs(b)
    decreases |a|
  {
    if |a| == 0 {
      assert a + b == b;
    } else {
      assert (a + b)[1..] == a[1..] + b;
      ExpandTabsAppend(a[1..], b);
    }
  }

  /** A tab becomes four spaces and any other character stays itself. With
      `ExpandTabsAppend` this fixes the expansion of every text. */
  lemma ExpandTabsChar(c: char)
    ensures ExpandTabs([c]) == if c == '\t' then "    " else [c]
  {
    assert [c][1..] == [];
  }

  lemma {:induction false} CountAbsent(c: char, s: string)
    requires forall i :: 0 <= i < |s| ==> s[i] != c
    ensures CountChar(c, s) == 0
    decreases |s|
  {
    if |s| > 0 {
      CountAbsent(c, s[1..]);
    }
  }

  lemma {:induction false} CountCharAppend(c: char, a: string, b: string)
    ensures CountChar(c, a + b) == CountChar(c, a) + CountChar(c, b)
    decreases |a|
  {
    if |a| == 0 {
      assert a + b == b;
    } else {
      assert (a + b)[1..] == a[1..] + b;
      CountCharAppend(c, a[1..], b);
    }
  }

  /** `clean_code`: normalise, expand tabs to four spaces and strip the ends. */
  function CleanCode(nfkc: string -> string, text: string): string {
    Strip(ExpandTabs(nfkc(text)))
  }

  /** The result of `clean_code` holds no tab and is the tab-expanded text
      with only its leading and trailing whitespace removed, so interior
      newlines and indentation survive. */
  lemma CleanCodeShape(nfkc: string -> string, text: string)
    ensures var r := CleanCode(nfkc, text);
            var e := ExpandTabs(nfkc(text));
            && (forall i :: 0 <= i < |r| ==> r[i] != '\t')
            && (|r| > 0 ==> !IsSpace(r[0]) && !IsSpace(r[|r| - 1]))
            && StripOffset(e) + |r| <= |e|
            && r == e[StripOffset(e)..StripOffset(e) + |r|]
            && AllSpace(e[..StripOffset(e)])
            && AllSpace(e[StripOffset(e) + |r|..])
  {
    var e := ExpandTabs(nfkc(text));
    ExpandTabsShape(nfkc(text));
    var r := Strip(e);
    assert CleanCode(nfkc, text) == r;
    StripShape(e);
    SliceAvoids(e, StripOffset(e), r, '\t');
  }

  /** A slice of a string without `c` has no `c` either. */
  lemma SliceAvoids(e: string, a: nat, r: string, c: char)
    requires a + |r| <= |e| && r == e[a..a + |r|]
    requires forall i :: 0 <= i < |e| ==> e[i] != c
    ensures forall i :: 0 <= i < |r| ==> r[i] != c
  {
    forall i | 0 <= i < |r| ensures r[i] != c {
      assert r[i] == e[a + i];
    }
  }
}
