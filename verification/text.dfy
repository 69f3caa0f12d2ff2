/** String primitives the crawler relies on: JavaScript's whitespace class
    (used by `split(/\s+/)` and `trim()`), UTF-8 byte length (what
    `new TextEncoder().encode(s).length` measures), the word split and the
    space-joined concatenation that the chunker builds. */
module Text {

  /** ECMAScript WhiteSpace and LineTerminator code points: the set matched by
      `\s` and removed by `String.prototype.trim`. */
  predicate IsSpace(c: char)
  {
    c == ' ' || c == '\t' || c == '\n' || c == '\r' || c == '\U{000B}' || c == '\U{000C}'
    || c == '\U{00A0}' || c == '\U{1680}' || ('\U{2000}' <= c <= '\U{200A}')
    || c == '\U{2028}' || c == '\U{2029}' || c == '\U{202F}' || c == '\U{205F}'
    || c == '\U{3000}' || c == '\U{FEFF}'
  }

  /** A string with no whitespace character in it. */
  predicate SpaceFree(s: string)
  {
    forall i :: 0 <= i < |s| ==> !IsSpace(s[i])
  }

  /** Number of bytes of the UTF-8 encoding of one code point. */
  function Utf8Len(c: char): (n: nat)
    ensures 1 <= n <= 4
  {
    if c as int < 0x80 then 1
    else if c as int < 0x800 then 2
    else if c as int < 0x1_0000 then 3
    else 4
  }

  /** Length in bytes of the UTF-8 encoding of `s`. */
  function ByteLen(s: string): (n: nat)
    ensures |s| <= n <= 4 * |s|
    decreases |s|
  {
    if s == [] then 0 else ByteLen(s[..|s| - 1]) + Utf8Len(s[|s| - 1])
  }

  lemma {:induction false} ByteLenAppend(a: string, b: string)
    ensures ByteLen(a + b) == ByteLen(a) + ByteLen(b)
    decreases |b|
  {
    if b == [] {
      assert a + b == a;
    } else {
      var b' := b[..|b| - 1];
      assert (a + b)[..|a + b| - 1] == a + b';
      ByteLenAppend(a, b');
    }
  }

  /** `n` ASCII spaces. */
  function Spaces(n: nat): string
  {
    seq(n, _ => ' ')
  }

  // ---------------------------------------------------------------------
  // trim()

  function TrimStart(s: string): (r: string)
    ensures |r| <= |s|
    ensures r == [] || !IsSpace(r[0])
    decreases |s|
  {
    if |s| > 0 && IsSpace(s[0]) then TrimStart(s[1..]) else s
  }

  function TrimEnd(s: string): (r: string)
    ensures |r| <= |s|
    ensures r == [] || !IsSpace(r[|r| - 1])
    decreases |s|
  {
    if |s| > 0 && IsSpace(s[|s| - 1]) then TrimEnd(s[..|s| - 1]) else s
  }

  /** `String.prototype.trim`: strips leading and trailing whitespace. */
  function Trim(s: string): string
  {
    TrimEnd(TrimStart(s))
  }

  /** A string with no whitespace at either end. */
  predicate Unpadded(x: string)
  {
    x == [] || (!IsSpace(x[0]) && !IsSpace(x[|x| - 1]))
  }

  lemma {:induction false} TrimStartSpaces(a: nat, y: string)
    requires y == [] || !IsSpace(y[0])
    ensures TrimStart(Spaces(a) + y) == y
    decreases a
  {
    if a > 0 {
      assert (Spaces(a) + y)[1..] == Spaces(a - 1) + y;
      TrimStartSpaces(a - 1, y);
    } else {
      assert Spaces(a) + y == y;
    }
  }

  lemma {:induction false} TrimEndSpaces(x: string, b: nat)
    requires x == [] || !IsSpace(x[|x| - 1])
    ensures TrimEnd(x + Spaces(b)) == x
    decreases b
  {
    if b > 0 {
      assert (x + Spaces(b))[..|x + Spaces(b)| - 1] == x + Spaces(b - 1);
      TrimEndSpaces(x, b - 1);
    } else {
      assert x + Spaces(b) == x;
    }
  }

  /** Trimming a string that is `x` padded with spaces on both sides gives
      back `x`, when `x` has no whitespace at its ends. */
  lemma TrimPadded(a: nat, x: string, b: nat)
    requires Unpadded(x)
    ensures Trim(Spaces(a) + x + Spaces(b)) == x
  {
    if x == [] {
      assert Spaces(a) + x + Spaces(b) == Spaces(a + b) + [];
      TrimStartSpaces(a + b, []);
      assert TrimEnd([]) == [];
    } else {
      assert Spaces(a) + x + Spaces(b) == Spaces(a) + (x + Spaces(b));
      TrimStartSpaces(a, x + Spaces(b));
      TrimEndSpaces(x, b);
    }
  }

  // ---------------------------------------------------------------------
  // split(/\s+/)

  /** Index of the first whitespace character at or after `k`, or `|s|`. */
  function FirstSpace(s: string, k: nat): (i: nat)
    requires k <= |s|
    ensures k <= i <= |s|
    ensures forall j :: k <= j < i ==> !IsSpace(s[j])
    ensures i < |s| ==> IsSpace(s[i])
    decreases |s| - k
  {
    if k == |s| || IsSpace(s[k]) then k else FirstSpace(s, k + 1)
  }

  /** Index of the first non-whitespace character at or after `k`, or `|s|`. */
  function SkipSpaces(s: string, k: nat): (i: nat)
    requires k <= |s|
    ensures k <= i <= |s|
    ensures forall j :: k <= j < i ==> IsSpace(s[j])
    ensures i < |s| ==> !IsSpace(s[i])
    decreases |s| - k
  {
    if k == |s| || !IsSpace(s[k]) then k else SkipSpaces(s, k + 1)
  }

  /** `s.split(/\s+/)`: the pieces between maximal runs of whitespace. A
      leading run yields a first empty piece and a trailing run a last empty
      piece; the empty string splits into `[""]`. */
  function Split(s: string): (r: seq<string>)
    ensures |r| >= 1
    decreases |s|
  {
    var i := FirstSpace(s, 0);
    if i == |s| then [s]
    else [s[..i]] + Split(s[SkipSpaces(s, i)..])
  }

  /** Shape of a split: no piece holds whitespace, and only the first and the
      last piece can be empty. */
  ghost predicate SplitShaped(ws: seq<string>)
  {
    |ws| >= 1
    && (forall k :: 0 <= k < |ws| ==> SpaceFree(ws[k]))
    && (forall k :: 0 < k < |ws| - 1 ==> ws[k] != "")
  }

  lemma {:induction false} SplitShape(s: string)
    ensures SplitShaped(Split(s))
    ensures s != [] && !IsSpace(s[0]) ==> Split(s)[0] != ""
    decreases |s|
  {
    var i := FirstSpace(s, 0);
    if i < |s| {
      var t := s[SkipSpaces(s, i)..];
      SplitShape(t);
      var r := Split(s);
      assert r == [s[..i]] + Split(t);
      assert SpaceFree(s[..i]);
      if t != [] {
        assert t[0] == s[SkipSpaces(s, i)];
      }
      forall k | 0 < k < |r| - 1
        ensures r[k] != ""
      {
        assert r[k] == Split(t)[k - 1];
      }
    }
  }

  /** A whitespace-only string splits into two empty pieces. */
  lemma WhitespaceSplit(s: string)
    requires s != [] && forall i :: 0 <= i < |s| ==> IsSpace(s[i])
    ensures Split(s) == ["", ""]
  {
    assert FirstSpace(s, 0) == 0;
    var j := SkipSpaces(s, 0);
    assert j == |s|;
    assert Split(s) == [s[..0]] + Split(s[j..]);
    assert s[j..] == [];
  }

  /** Splitting two whitespace-free words joined by one space gives back the
      two words. */
  lemma SplitTwoWords(a: string, b: string)
    requires a != "" && b != "" && SpaceFree(a) && SpaceFree(b)
    ensures Split(a + " " + b) == [a, b]
  {
    var s := a + " " + b;
    assert forall j :: 0 <= j < |a| ==> s[j] == a[j];
    assert forall j :: 0 <= j < |a| ==> !IsSpace(s[j]);
    assert s[|a|] == ' ' && s[|a| + 1] == b[0];
    assert IsSpace(s[|a|]);
    assert FirstSpace(s, 0) == |a|;
    assert SkipSpaces(s, |a|) == |a| + 1;
    assert s[..|a|] == a;
    assert s[|a| + 1..] == b;
    assert forall j :: 0 <= j < |b| ==> b[j] == s[|a| + 1 + j];
    assert FirstSpace(b, 0) == |b|;
  }

  // ---------------------------------------------------------------------
  // content

  /** The non-whitespace characters of `s`, in order. */
  function NonSpace(s: string): (r: string)
    ensures |r| <= |s|
    decreases |s|
  {
    if s == "" then ""
    else (if IsSpace(s[0]) then "" else [s[0]]) + NonSpace(s[1..])
  }

  /** The strings of `ws` concatenated, in order. */
  function Concat(ws: seq<string>): string
    decreases |ws|
  {
    if ws == [] then "" else ws[0] + Concat(ws[1..])
  }

  lemma {:induction false} NonSpaceAppend(a: string, b: string)
    ensures NonSpace(a + b) == NonSpace(a) + NonSpace(b)
    decreases |a|
  {
    if a == "" {
      assert a + b == b;
    } else {
      assert (a + b)[0] == a[0];
      assert (a + b)[1..] == a[1..] + b;
      NonSpaceAppend(a[1..], b);
    }
  }

  /** A whitespace-free string is its own content. */
  lemma {:induction false} NonSpaceFree(s: string)
    requires SpaceFree(s)
    ensures NonSpace(s) == s
    decreases |s|
  {
    if s != "" {
      assert SpaceFree(s[1..]) by {
        forall i | 0 <= i < |s[1..]|
          ensures !IsSpace(s[1..][i])
        {
          assert s[1..][i] == s[i + 1];
        }
      }
      NonSpaceFree(s[1..]);
      assert s == [s[0]] + s[1..];
    }
  }

  /** A whitespace-only string has no content. */
  lemma {:induction false} NonSpaceBlank(s: string)
    requires forall i :: 0 <= i < |s| ==> IsSpace(s[i])
    ensures NonSpace(s) == ""
    decreases |s|
  {
    if s != "" {
      assert forall i :: 0 <= i < |s[1..]| ==> s[1..][i] == s[i + 1];
      NonSpaceBlank(s[1..]);
    }
  }

  /** Taking the content twice changes nothing. */
  lemma {:induction false} NonSpaceTwice(s: string)
    ensures NonSpace(NonSpace(s)) == NonSpace(s)
    decreases |s|
  {
    if s != "" {
      var head := if IsSpace(s[0]) then "" else [s[0]];
      NonSpaceTwice(s[1..]);
      NonSpaceAppend(head, NonSpace(s[1..]));
      if head != "" {
        assert head[1..] == "";
      }
    }
  }

  lemma {:induction false} ConcatAppend(a: seq<string>, b: seq<string>)
    ensures Concat(a + b) == Concat(a) + Concat(b)
    decreases |a|
  {
    if a == [] {
      assert a + b == b;
    } else {
      assert (a + b)[0] == a[0];
      assert (a + b)[1..] == a[1..] + b;
      ConcatAppend(a[1..], b);
    }
  }

  lemma ConcatCons(w: string, ws: seq<string>)
    ensures Concat([w] + ws) == w + Concat(ws)
  {
    assert ([w] + ws)[1..] == ws;
  }

  lemma SliceThree(s: string, i: nat, j: nat)
    requires i <= j <= |s|
    ensures s == s[..i] + (s[i..j] + s[j..])
  {
  }

  /** A prefix before the first whitespace is its own content. */
  lemma NonSpacePrefix(s: string, i: nat)
    requires i <= |s|
    requires forall k :: 0 <= k < i ==> !IsSpace(s[k])
    ensures NonSpace(s[..i]) == s[..i]
  {
    assert forall k :: 0 <= k < |s[..i]| ==> s[..i][k] == s[k];
    NonSpaceFree(s[..i]);
  }

  /** A whitespace run has no content. */
  lemma NonSpaceRun(s: string, i: nat, j: nat)
    requires i <= j <= |s|
    requires forall k :: i <= k < j ==> IsSpace(s[k])
    ensures NonSpace(s[i..j]) == ""
  {
    assert forall k :: 0 <= k < |s[i..j]| ==> s[i..j][k] == s[i + k];
    NonSpaceBlank(s[i..j]);
  }

  /** Cutting a whitespace run out of a string keeps its content. */
  lemma NonSpaceCut(a: string, b: string, t: string)
    requires NonSpace(a) == a && NonSpace(b) == ""
    ensures NonSpace(a + (b + t)) == a + NonSpace(t)
  {
    NonSpaceAppend(b, t);
    assert NonSpace(b + t) == NonSpace(t);
    NonSpaceAppend(a, b + t);
  }

  /** `split(/\s+/)` drops whitespace and nothing else: the pieces,
      concatenated, are the string's non-whitespace characters in order. */
  lemma {:induction false} SplitContent(s: string)
    ensures Concat(Split(s)) == NonSpace(s)
    decreases |s|
  {
    var i := FirstSpace(s, 0);
    if i == |s| {
      NonSpacePrefix(s, |s|);
      assert s[..|s|] == s;
      ConcatCons(s, []);
      assert [s] + [] == [s];
    } else {
      var j := SkipSpaces(s, i);
      var t := s[j..];
      assert Split(s) == [s[..i]] + Split(t);
      SplitContent(t);
      ConcatCons(s[..i], Split(t));
      NonSpacePrefix(s, i);
      NonSpaceRun(s, i, j);
      SliceThree(s, i, j);
      NonSpaceCut(s[..i], s[i..j], t);
    }
  }

  // ---------------------------------------------------------------------
  // word lists

  /** The non-empty entries of `ws`, in order. */
  function NonEmpty(ws: seq<string>): (r: seq<string>)
    ensures |r| <= |ws|
    decreases |ws|
  {
    if ws == [] then []
    else
      var init := NonEmpty(ws[..|ws| - 1]);
      if ws[|ws| - 1] == "" then init else init + [ws[|ws| - 1]]
  }

  /** `NonEmpty` keeps exactly the non-empty entries. */
  lemma {:induction false} NonEmptyMembers(ws: seq<string>)
    ensures forall w :: w in NonEmpty(ws) <==> w in ws && w != ""
    decreases |ws|
  {
    if ws != [] {
      NonEmptyMembers(ws[..|ws| - 1]);
      assert ws == ws[..|ws| - 1] + [ws[|ws| - 1]];
    }
  }

  /** Non-empty, whitespace-free words: the words a chunk is made of. */
  predicate Words(g: seq<string>)
  {
    forall k :: 0 <= k < |g| ==> g[k] != "" && SpaceFree(g[k])
  }

  /** The words of `g` joined by single spaces. */
  function JoinSpace(g: seq<string>): string
    decreases |g|
  {
    if |g| == 0 then ""
    else if |g| == 1 then g[0]
    else JoinSpace(g[..|g| - 1]) + " " + g[|g| - 1]
  }

  lemma {:induction false} JoinSpaceUnpadded(g: seq<string>)
    requires Words(g)
    ensures Unpadded(JoinSpace(g))
    ensures |g| > 0 ==> JoinSpace(g) != "" && JoinSpace(g)[0] == g[0][0]
    decreases |g|
  {
    if |g| > 1 {
      JoinSpaceUnpadded(g[..|g| - 1]);
    }
  }

  /** Joining adds one byte per separating space on top of the words. */
  lemma {:induction false} JoinSpaceByteLen(g: seq<string>)
    requires |g| > 0
    ensures ByteLen(JoinSpace(g)) == SumBytes(g) + |g| - 1
    decreases |g|
  {
    if |g| > 1 {
      var init := g[..|g| - 1];
      JoinSpaceByteLen(init);
      ByteLenAppend(JoinSpace(init), " ");
      ByteLenAppend(JoinSpace(init) + " ", g[|g| - 1]);
      assert ByteLen(" ") == 1;
    } else {
      assert g[..0] == [];
    }
  }

  /** Summed byte length of a list of words. */
  function SumBytes(g: seq<string>): nat
    decreases |g|
  {
    if g == [] then 0 else SumBytes(g[..|g| - 1]) + ByteLen(g[|g| - 1])
  }

  /** The concatenation of a list of word lists. */
  function Flatten(gs: seq<seq<string>>): (r: seq<string>)
    decreases |gs|
  {
    if gs == [] then [] else Flatten(gs[..|gs| - 1]) + gs[|gs| - 1]
  }

  /** Dropping the empty pieces does not change the concatenation. */
  lemma {:induction false} ConcatNonEmpty(ws: seq<string>)
    ensures Concat(NonEmpty(ws)) == Concat(ws)
    decreases |ws|
  {
    if ws != [] {
      var init, last := ws[..|ws| - 1], ws[|ws| - 1];
      ConcatNonEmpty(init);
      assert ws == init + [last];
      ConcatAppend(init, [last]);
      ConcatAppend(NonEmpty(init), [last]);
      assert [last][1..] == [];
    }
  }

  lemma ConcatSnoc(ws: seq<string>, w: string)
    ensures Concat(ws + [w]) == Concat(ws) + w
  {
    ConcatAppend(ws, [w]);
    assert [w][1..] == [];
    assert w + "" == w;
  }

  /** One more joined word adds only the separating space to the content. */
  lemma NonSpaceJoinStep(j: string, c: string, w: string)
    requires NonSpace(j) == NonSpace(c)
    ensures NonSpace(j + " " + w) == NonSpace(c + w)
  {
    var js := j + " ";
    NonSpaceAppend(j, " ");
    NonSpaceOneSpace();
    assert NonSpace(js) == NonSpace(j) + "";
    assert NonSpace(js) == NonSpace(c);
    NonSpaceAppend(js, w);
    NonSpaceAppend(c, w);
  }

  lemma NonSpaceOneSpace()
    ensures NonSpace(" ") == ""
  {
    assert " "[1..] == "";
  }

  /** Joining with spaces adds only whitespace to the concatenation. */
  lemma {:induction false} NonSpaceJoin(g: seq<string>)
    ensures NonSpace(JoinSpace(g)) == NonSpace(Concat(g))
    decreases |g|
  {
    if |g| == 1 {
      assert JoinSpace(g) == g[0];
      assert g[1..] == [];
      assert Concat(g) == g[0] + "";
      assert g[0] + "" == g[0];
    } else if |g| > 1 {
      var init, last := g[..|g| - 1], g[|g| - 1];
      assert JoinSpace(g) == JoinSpace(init) + " " + last;
      NonSpaceJoin(init);
      assert g == init + [last];
      ConcatSnoc(init, last);
      NonSpaceJoinStep(JoinSpace(init), Concat(init), last);
    }
  }

  /** Splitting a word followed by a space and a string that starts with a
      non-whitespace character gives the word, then the string's pieces. */
  lemma SplitCons(w: string, t: string)
    requires w != "" && SpaceFree(w)
    requires t != "" && !IsSpace(t[0])
    ensures Split(w + " " + t) == [w] + Split(t)
  {
    var s := w + " " + t;
    assert forall j :: 0 <= j < |w| ==> s[j] == w[j];
    assert s[|w|] == ' ' && s[|w| + 1] == t[0];
    assert IsSpace(s[|w|]);
    assert FirstSpace(s, 0) == |w|;
    assert SkipSpaces(s, |w|) == |w| + 1;
    assert s[..|w|] == w;
    assert s[|w| + 1..] == t;
  }

  /** A whitespace-free word splits into itself. */
  lemma SplitWord(w: string)
    requires SpaceFree(w)
    ensures Split(w) == [w]
  {
    assert FirstSpace(w, 0) == |w|;
  }

  /** `JoinSpace` unfolded from the front. */
  lemma {:induction false} JoinSpaceCons(g: seq<string>)
    requires |g| >= 2
    ensures JoinSpace(g) == g[0] + " " + JoinSpace(g[1..])
    decreases |g|
  {
    var init, last := g[..|g| - 1], g[|g| - 1];
    assert JoinSpace(g) == JoinSpace(init) + " " + last;
    assert g[1..][..|g| - 2] == init[1..];
    assert g[1..][|g| - 2] == last;
    if |g| == 2 {
      assert JoinSpace(init) == g[0];
      assert JoinSpace(g[1..]) == last;
    } else {
      JoinSpaceCons(init);
      var mid := JoinSpace(init[1..]);
      assert init[0] == g[0];
      assert JoinSpace(g[1..]) == mid + " " + last;
      assert JoinSpace(g) == (g[0] + " " + mid) + " " + last;
      assert (g[0] + " " + mid) + " " + last == g[0] + " " + (mid + " " + last);
    }
  }

  /** No word of a space-joined list is cut: splitting the joined string gives
      the words back. */
  lemma {:induction false} SplitJoin(g: seq<string>)
    requires Words(g) && g != []
    ensures Split(JoinSpace(g)) == g
    decreases |g|
  {
    if |g| == 1 {
      SplitWord(g[0]);
    } else {
      var rest := g[1..];
      assert Words(rest) by {
        assert forall k :: 0 <= k < |rest| ==> rest[k] == g[k + 1];
      }
      SplitJoin(rest);
      JoinSpaceCons(g);
      JoinSpaceUnpadded(rest);
      SplitCons(g[0], JoinSpace(rest));
      assert [g[0]] + rest == g;
    }
  }
}
