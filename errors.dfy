/**
 * ValidationError.Error (aspects/schema.go): the rendering of an error path.
 * Key segments are joined by '.', with no dot before the first segment;
 * an index segment renders as "[i]" directly after what precedes it. An
 * empty path is reported as the top-level element.
 */
module ErrorText {
  import opened Wrappers
  import opened Nodes

  const TopLevelMessage: string := "cannot accept top level element"
  const ElementPrefix: string := "cannot accept element in "

  predicate IsDigit(c: char) {
    '0' <= c <= '9'
  }

  /** The decimal digits of n, most significant first, without leading zeros. */
  function NatToString(n: nat): (s: string)
    ensures |s| > 0 && forall k :: 0 <= k < |s| ==> IsDigit(s[k])
    ensures n >= 10 ==> s[0] != '0'
    decreases n
  {
    if n < 10 then [(48 + n) as char]
    else NatToString(n / 10) + [(48 + n % 10) as char]
  }

  /** The number a string of decimal digits denotes. */
  function DigitsValue(s: string): nat
    requires forall k :: 0 <= k < |s| ==> IsDigit(s[k])
    decreases |s|
  {
    if s == [] then 0
    else DigitsValue(s[..|s| - 1]) * 10 + DigitValue(s[|s| - 1])
  }

  function DigitValue(c: char): nat
    requires IsDigit(c)
  {
    c as int - '0' as int
  }

  lemma {:induction false} DigitsValueOfNatToString(n: nat)
    ensures DigitsValue(NatToString(n)) == n
    decreases n
  {
    if n >= 10 {
      var s := NatToString(n);
      assert s[..|s| - 1] == NatToString(n / 10);
      DigitsValueOfNatToString(n / 10);
    }
  }

  /** The text of one segment; `first` tells whether it opens the path. */
  function SegmentText(s: Segment, first: bool): string {
    match s
    case Key(k) => (if first then "" else ".") + k
    case Index(i) => "[" + NatToString(i) + "]"
  }

  /** The path text the builder produces, defined segment by segment from the left. */
  function RenderPath(path: seq<Segment>): string
    decreases |path|
  {
    if path == [] then ""
    else RenderPath(path[..|path| - 1]) + SegmentText(path[|path| - 1], |path| == 1)
  }

  /** The message before the cause: the top-level wording, or the quoted path. */
  function Message(e: ValidationError): (m: string)
    ensures m == TopLevelMessage <==> |e.path| == 0
    ensures |e.path| != 0 ==> m == ElementPrefix + "\"" + RenderPath(e.path) + "\""
  {
    if |e.path| == 0 then TopLevelMessage
    else
      var m := ElementPrefix + "\"" + RenderPath(e.path) + "\"";
      assert m[14] == ElementPrefix[14] != TopLevelMessage[14];
      m
  }

  /** The strings.Builder loop of Error, then the top-level or quoted-path wording. */
  method ErrorMessage(e: ValidationError) returns (msg: string)
    ensures msg == Message(e)
  {
    if |e.path| == 0 {
      msg := TopLevelMessage;
    } else {
      var sb := "";
      var i := 0;
      while i < |e.path|
        invariant 0 <= i <= |e.path|
        invariant sb == RenderPath(e.path[..i])
      {
        var part := e.path[i];
        ghost var before := sb;
        match part {
          case Key(k) =>
            if i > 0 {
              sb := sb + ".";
            }
            sb := sb + k;
            Assoc(before, if i > 0 then "." else "", k);
          case Index(x) =>
            sb := sb + ("[" + NatToString(x) + "]");
        }
        assert sb == before + SegmentText(part, i == 0);
        RenderPrefix(e.path, i);
        i := i + 1;
      }
      assert e.path[..i] == e.path;
      msg := ElementPrefix + "\"" + sb + "\"";
    }
  }

  // Reading a path back from its text, for keys that the text cannot confuse.

  /** The characters that delimit segments in the rendered text. */
  predicate Delimiter(c: char) {
    c == '.' || c == '[' || c == ']'
  }

  /** A key the rendering keeps apart from its neighbours: non-empty, without delimiters. */
  predicate PlainKey(k: string) {
    |k| > 0 && forall m :: 0 <= m < |k| ==> !Delimiter(k[m])
  }

  predicate PlainPath(path: seq<Segment>) {
    forall m :: 0 <= m < |path| ==> (path[m].Key? ==> PlainKey(path[m].name))
  }

  /** The start of the longest run of non-delimiters ending at j. */
  function KeyStart(s: string, j: nat): (r: nat)
    requires j <= |s|
    ensures r <= j && forall m :: r <= m < j ==> !Delimiter(s[m])
    ensures r > 0 ==> Delimiter(s[r - 1])
    decreases j
  {
    if j == 0 || Delimiter(s[j - 1]) then j else KeyStart(s, j - 1)
  }

  /** The start of the longest run of digits ending at j. */
  function DigitsStart(s: string, j: nat): (r: nat)
    requires j <= |s|
    ensures r <= j && forall m :: r <= m < j ==> IsDigit(s[m])
    ensures r > 0 ==> !IsDigit(s[r - 1])
    decreases j
  {
    if j == 0 || !IsDigit(s[j - 1]) then j else DigitsStart(s, j - 1)
  }

  /** Reads a rendered path back, from its last segment to its first. */
  function ParsePath(s: string): (r: Option<seq<Segment>>)
    decreases |s|
  {
    if |s| == 0 then Some([])
    else if s[|s| - 1] == ']' then
      var d := DigitsStart(s, |s| - 1);
      if d == |s| - 1 || d == 0 || s[d - 1] != '[' then None
      else
        match ParsePath(s[..d - 1])
        case None => None
        case Some(p) => Some(p + [Index(DigitsValue(s[d..|s| - 1]))])
    else
      var k := KeyStart(s, |s|);
      if k == |s| then None
      else if k == 0 then Some([Key(s)])
      else if s[k - 1] != '.' || k == 1 then None
      else
        match ParsePath(s[..k - 1])
        case None => None
        case Some(p) => Some(p + [Key(s[k..])])
  }

  lemma KeyStartAt(s: string, a: nat, j: nat)
    requires a <= j <= |s|
    requires forall m :: a <= m < j ==> !Delimiter(s[m])
    requires a == 0 || Delimiter(s[a - 1])
    ensures KeyStart(s, j) == a
    decreases j
  {
    if j > a {
      KeyStartAt(s, a, j - 1);
    }
  }

  lemma DigitsStartAt(s: string, a: nat, j: nat)
    requires a <= j <= |s|
    requires forall m :: a <= m < j ==> IsDigit(s[m])
    requires a == 0 || !IsDigit(s[a - 1])
    ensures DigitsStart(s, j) == a
    decreases j
  {
    if j > a {
      DigitsStartAt(s, a, j - 1);
    }
  }

  lemma {:induction false} RenderPathNonEmpty(path: seq<Segment>)
    requires PlainPath(path) && |path| > 0
    ensures |RenderPath(path)| > 0
  {
    var last := path[|path| - 1];
    assert last.Key? ==> PlainKey(last.name);
  }

  lemma ParseFirstKey(k: string)
    requires PlainKey(k)
    ensures ParsePath(k) == Some([Key(k)])
  {
    KeyStartAt(k, 0, |k|);
  }

  lemma ParseAppendKey(pre: string, p: seq<Segment>, k: string)
    requires ParsePath(pre) == Some(p) && |pre| > 0 && PlainKey(k)
    ensures ParsePath(pre + "." + k) == Some(p + [Key(k)])
  {
    var s := pre + "." + k;
    assert s[..|pre|] == pre;
    assert s[|pre| + 1..] == k;
    ParseDotted(s, pre, p, k);
  }

  /** A string made of a parsed prefix, a '.', and a plain key, given by its parts. */
  lemma ParseDotted(s: string, pre: string, p: seq<Segment>, k: string)
    requires ParsePath(pre) == Some(p) && |pre| > 0 && PlainKey(k)
    requires |s| == |pre| + 1 + |k| && s[..|pre|] == pre && s[|pre|] == '.' && s[|pre| + 1..] == k
    ensures ParsePath(s) == Some(p + [Key(k)])
  {
    DotStart(s, pre, k);
    assert s[|s| - 1] == k[|k| - 1];
  }

  /** The run of non-delimiters at the end starts just after the dot. */
  lemma DotStart(s: string, pre: string, k: string)
    requires PlainKey(k)
    requires |s| == |pre| + 1 + |k| && s[|pre|] == '.' && s[|pre| + 1..] == k
    ensures KeyStart(s, |s|) == |pre| + 1
  {
    forall m | |pre| + 1 <= m < |s| ensures !Delimiter(s[m]) {
      assert s[m] == s[|pre| + 1..][m - |pre| - 1];
    }
    KeyStartAt(s, |pre| + 1, |s|);
  }

  lemma ParseAppendDigits(pre: string, p: seq<Segment>, digits: string)
    requires ParsePath(pre) == Some(p)
    requires |digits| > 0 && forall m :: 0 <= m < |digits| ==> IsDigit(digits[m])
    ensures ParsePath(pre + "[" + digits + "]") == Some(p + [Index(DigitsValue(digits))])
  {
    var s := pre + "[" + digits + "]";
    assert s[..|pre|] == pre;
    assert s[|pre| + 1..|s| - 1] == digits;
    ParseBracketed(s, pre, p, digits);
  }

  /** A string made of a parsed prefix and "[digits]", given by its parts. */
  lemma ParseBracketed(s: string, pre: string, p: seq<Segment>, digits: string)
    requires ParsePath(pre) == Some(p)
    requires |digits| > 0 && forall m :: 0 <= m < |digits| ==> IsDigit(digits[m])
    requires |s| == |pre| + |digits| + 2 && s[..|pre|] == pre && s[|pre|] == '['
    requires s[|pre| + 1..|s| - 1] == digits && s[|s| - 1] == ']'
    ensures ParsePath(s) == Some(p + [Index(DigitsValue(digits))])
  {
    BracketStart(s, pre, digits);
    var d := |pre| + 1;
    assert s[..d - 1] == pre && s[d..|s| - 1] == digits;
  }

  /** The run of digits before the closing bracket starts just after the opening one. */
  lemma BracketStart(s: string, pre: string, digits: string)
    requires |digits| > 0 && forall m :: 0 <= m < |digits| ==> IsDigit(digits[m])
    requires |s| == |pre| + |digits| + 2 && s[|pre|] == '[' && s[|pre| + 1..|s| - 1] == digits
    ensures DigitsStart(s, |s| - 1) == |pre| + 1
  {
    forall m | |pre| + 1 <= m < |s| - 1 ensures IsDigit(s[m]) {
      assert s[m] == s[|pre| + 1..|s| - 1][m - |pre| - 1];
    }
    DigitsStartAt(s, |pre| + 1, |s| - 1);
  }

  /** One more element of a prefix. */
  lemma TakeSnoc(p: seq<Segment>, i: nat)
    requires i < |p|
    ensures p[..i + 1] == p[..i] + [p[i]]
  {
  }

  /** Rendering a prefix one segment longer appends that segment's text. */
  lemma RenderPrefix(p: seq<Segment>, i: nat)
    requires i < |p|
    ensures RenderPath(p[..i + 1]) == RenderPath(p[..i]) + SegmentText(p[i], i == 0)
  {
    TakeSnoc(p, i);
    RenderSnoc(p[..i], p[i]);
  }

  lemma Assoc(a: string, b: string, c: string)
    ensures a + b + c == a + (b + c)
  {
  }

  /** Rendering one more segment appends its text. */
  lemma RenderSnoc(init: seq<Segment>, seg: Segment)
    ensures RenderPath(init + [seg]) == RenderPath(init) + SegmentText(seg, init == [])
  {
    assert (init + [seg])[..|init|] == init;
  }

  lemma ParseRenderKey(init: seq<Segment>, k: string)
    requires PlainPath(init) && PlainKey(k)
    requires ParsePath(RenderPath(init)) == Some(init)
    ensures ParsePath(RenderPath(init + [Key(k)])) == Some(init + [Key(k)])
  {
    RenderSnoc(init, Key(k));
    if init == [] {
      assert RenderPath(init + [Key(k)]) == k;
      ParseFirstKey(k);
      assert [] + [Key(k)] == [Key(k)];
    } else {
      RenderPathNonEmpty(init);
      assert RenderPath(init + [Key(k)]) == RenderPath(init) + "." + k;
      ParseAppendKey(RenderPath(init), init, k);
    }
  }

  lemma ParseRenderIndex(init: seq<Segment>, x: nat)
    requires ParsePath(RenderPath(init)) == Some(init)
    ensures ParsePath(RenderPath(init + [Index(x)])) == Some(init + [Index(x)])
  {
    RenderSnoc(init, Index(x));
    var digits := NatToString(x);
    assert RenderPath(init + [Index(x)]) == RenderPath(init) + "[" + digits + "]";
    ParseAppendDigits(RenderPath(init), init, digits);
    DigitsValueOfNatToString(x);
  }

  /** The rendering loses nothing: a path of plain keys and indices reads back as itself. */
  lemma {:induction false} ParseRenderPath(path: seq<Segment>)
    requires PlainPath(path)
    ensures ParsePath(RenderPath(path)) == Some(path)
    decreases |path|
  {
    if path != [] {
      var init := path[..|path| - 1];
      var last := path[|path| - 1];
      assert PlainPath(init) by {
        forall m | 0 <= m < |init| ensures init[m].Key? ==> PlainKey(init[m].name) {
          assert init[m] == path[m];
        }
      }
      assert path == init + [last];
      ParseRenderPath(init);
      match last {
        case Key(k) =>
          assert PlainKey(k);
          ParseRenderKey(init, k);
        case Index(x) =>
          ParseRenderIndex(init, x);
      }
    }
  }

  /** Two plain paths with the same text are the same path. */
  lemma RenderPathInjective(p: seq<Segment>, q: seq<Segment>)
    requires PlainPath(p) && PlainPath(q)
    requires RenderPath(p) == RenderPath(q)
    ensures p == q
  {
    ParseRenderPath(p);
    ParseRenderPath(q);
  }

  /**
   * A message for a non-empty plain path names that path recoverably: it
   * opens with the element wording, and the text between its quotes reads
   * back as the path.
   */
  lemma MessageNamesPath(e: ValidationError)
    requires PlainPath(e.path) && |e.path| != 0
    ensures var m := Message(e);
      |m| >= |ElementPrefix| + 2 && m[..|ElementPrefix|] == ElementPrefix &&
      ParsePath(m[|ElementPrefix| + 1..|m| - 1]) == Some(e.path)
  {
    var t := RenderPath(e.path);
    Quoted(ElementPrefix, t);
    ParseRenderPath(e.path);
  }

  /** The parts of a text quoted after a prefix. */
  lemma Quoted(pre: string, t: string)
    ensures var m := pre + "\"" + t + "\"";
      |m| == |pre| + |t| + 2 && m[..|pre|] == pre && m[|pre| + 1..|m| - 1] == t
  {
    var m := pre + "\"" + t + "\"";
    assert m[..|pre|] == pre;
    assert m[|pre| + 1..|m| - 1] == t;
  }

  /** Errors at two different plain paths never share a message. */
  lemma MessageInjective(e1: ValidationError, e2: ValidationError)
    requires PlainPath(e1.path) && PlainPath(e2.path)
    requires Message(e1) == Message(e2)
    ensures e1.path == e2.path
  {
    if |e1.path| != 0 && |e2.path| != 0 {
      MessageNamesPath(e1);
      MessageNamesPath(e2);
    }
  }

  /** The documented example: the path ["a", 1] renders as a[1]. */
  lemma RenderExample()
    ensures RenderPath([Key("a"), Index(1)]) == "a[1]"
    ensures Message(ValidationError([Key("a"), Index(1)], Missing)) == ElementPrefix + "\"a[1]\""
  {
    RenderSnoc([], Key("a"));
    assert [] + [Key("a")] == [Key("a")];
    assert RenderPath([Key("a")]) == "a";
    RenderSnoc([Key("a")], Index(1));
    assert [Key("a")] + [Index(1)] == [Key("a"), Index(1)];
    assert NatToString(1) == "1";
    assert RenderPath([Key("a"), Index(1)]) == "a" + "[" + "1" + "]";
  }
}
