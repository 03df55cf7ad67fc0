/**
 * The string operations of JavaScript that the readers use: whitespace as
 * `\s` and `String.prototype.trim` see it, `trim`, `split(',')`,
 * `split(/\r\n|\r|\n/)` and the whitespace replacement of processContext.js.
 */
module Text {

  /**
   * WhiteSpace and LineTerminator code points (sections 12.2 and 12.3 of
   * ECMA-262): the set matched by `\s` and removed by `trim`.
   */
  predicate IsWs(c: char) {
    || c == '\t' || c == '\n' || c == '\U{000B}' || c == '\U{000C}' || c == '\r'
    || c == ' ' || c == '\U{00A0}' || c == '\U{1680}'
    || ('\U{2000}' <= c <= '\U{200A}')
    || c == '\U{2028}' || c == '\U{2029}' || c == '\U{202F}' || c == '\U{205F}'
    || c == '\U{3000}' || c == '\U{FEFF}'
  }

  predicate IsBlank(s: string) {
    forall i :: 0 <= i < |s| ==> IsWs(s[i])
  }

  lemma BlankConcat(a: string, b: string)
    ensures IsBlank(a + b) <==> IsBlank(a) && IsBlank(b)
  {
    if IsBlank(a) && IsBlank(b) {
      forall i | 0 <= i < |a + b| ensures IsWs((a + b)[i]) {
        if i >= |a| { assert (a + b)[i] == b[i - |a|]; }
      }
    }
    if IsBlank(a + b) {
      forall i | 0 <= i < |b| ensures IsWs(b[i]) { assert b[i] == (a + b)[|a| + i]; }
      forall i | 0 <= i < |a| ensures IsWs(a[i]) { assert a[i] == (a + b)[i]; }
    }
  }

  // ---------------------------------------------------------------- trim

  /** Drops the leading whitespace (see `TrimStartDropsBlank`). */
  function TrimStart(s: string): (r: string)
    ensures |r| <= |s|
  {
    if s != [] && IsWs(s[0]) then TrimStart(s[1..]) else s
  }

  /** Drops the trailing whitespace (see `TrimEndDropsBlank`). */
  function TrimEnd(s: string): (r: string)
    ensures |r| <= |s|
  {
    if s != [] && IsWs(s[|s| - 1]) then TrimEnd(s[..|s| - 1]) else s
  }

  /** `TrimStart` keeps a suffix that does not start with whitespace. */
  lemma {:induction false} TrimStartKeepsSuffix(s: string)
    ensures TrimStart(s) == s[|s| - |TrimStart(s)|..]
    ensures TrimStart(s) != [] ==> !IsWs(TrimStart(s)[0])
  {
    if s != [] && IsWs(s[0]) {
      var r := TrimStart(s[1..]);
      TrimStartKeepsSuffix(s[1..]);
      assert s[1..][|s| - 1 - |r|..] == s[|s| - |r|..];
    }
  }

  /** What `TrimStart` drops is whitespace. */
  lemma {:induction false} TrimStartDropsBlank(s: string)
    ensures IsBlank(s[..|s| - |TrimStart(s)|])
  {
    if s != [] && IsWs(s[0]) {
      var r := TrimStart(s[1..]);
      TrimStartDropsBlank(s[1..]);
      assert s[..|s| - |r|] == [s[0]] + s[1..][..|s| - 1 - |r|];
      BlankConcat([s[0]], s[1..][..|s| - 1 - |r|]);
    }
  }

  /** `TrimEnd` keeps a prefix that does not end with whitespace. */
  lemma {:induction false} TrimEndKeepsPrefix(s: string)
    ensures TrimEnd(s) == s[..|TrimEnd(s)|]
    ensures TrimEnd(s) != [] ==> !IsWs(TrimEnd(s)[|TrimEnd(s)| - 1])
  {
    if s != [] && IsWs(s[|s| - 1]) {
      var r := TrimEnd(s[..|s| - 1]);
      TrimEndKeepsPrefix(s[..|s| - 1]);
      assert s[..|s| - 1][..|r|] == s[..|r|];
    }
  }

  /** What `TrimEnd` drops is whitespace. */
  lemma {:induction false} TrimEndDropsBlank(s: string)
    ensures IsBlank(s[|TrimEnd(s)|..])
  {
    if s != [] && IsWs(s[|s| - 1]) {
      var r := TrimEnd(s[..|s| - 1]);
      TrimEndDropsBlank(s[..|s| - 1]);
      assert s[|r|..] == s[..|s| - 1][|r|..] + [s[|s| - 1]];
      BlankConcat(s[..|s| - 1][|r|..], [s[|s| - 1]]);
    }
  }

  /** `TrimEnd` keeps every character up to the last one that is not whitespace. */
  lemma {:induction false} TrimEndKeepsVisible(s: string, i: nat)
    requires i < |s| && !IsWs(s[i])
    ensures |TrimEnd(s)| > i
  {
    if IsWs(s[|s| - 1]) {
      TrimEndKeepsVisible(s[..|s| - 1], i);
    }
  }

  /** `s.trim()`: never longer than `s` (see `TrimLeavesNoOuterWs` and `TrimEmptyIffBlank`). */
  function Trim(s: string): (r: string)
    ensures |r| <= |s|
  {
    TrimEnd(TrimStart(s))
  }

  /** The result of `trim` neither starts nor ends with whitespace. */
  lemma TrimLeavesNoOuterWs(s: string)
    ensures var r := Trim(s); r != [] ==> !IsWs(r[0]) && !IsWs(r[|r| - 1])
  {
    var t := TrimStart(s);
    TrimStartKeepsSuffix(s);
    TrimStartDropsBlank(s);
    TrimEndKeepsPrefix(t);
    TrimEndDropsBlank(t);
    TrimParts(s, t, TrimEnd(t));
  }

  /** `trim` yields the empty string exactly for a blank string. */
  lemma TrimEmptyIffBlank(s: string)
    ensures Trim(s) == [] <==> IsBlank(s)
  {
    var t := TrimStart(s);
    TrimStartKeepsSuffix(s);
    TrimStartDropsBlank(s);
    TrimEndKeepsPrefix(t);
    TrimEndDropsBlank(t);
    TrimParts(s, t, TrimEnd(t));
  }

  /** How the two halves of `Trim` combine, from their contracts alone. */
  lemma TrimParts(s: string, t: string, r: string)
    requires |t| <= |s| && t == s[|s| - |t|..] && IsBlank(s[..|s| - |t|]) && (t != [] ==> !IsWs(t[0]))
    requires |r| <= |t| && r == t[..|r|] && IsBlank(t[|r|..]) && (r != [] ==> !IsWs(r[|r| - 1]))
    ensures r != [] ==> !IsWs(r[0])
    ensures r == [] <==> IsBlank(s)
  {
    if r != [] {
      assert r[0] == t[0];
    } else {
      assert t == t[|r|..];
      assert s == s[..|s| - |t|] + t;
      BlankConcat(s[..|s| - |t|], t);
    }
  }

  /** A string that neither starts nor ends with whitespace is its own trim. */
  lemma TrimUnchanged(s: string)
    requires s != [] && !IsWs(s[0]) && !IsWs(s[|s| - 1])
    ensures Trim(s) == s
  {
    assert TrimStart(s) == s;
  }

  // ---------------------------------------------------------------- split and join

  /** `s.split(sep)` for a one-character separator: never empty, and no piece holds the separator. */
  function Split(s: string, sep: char): (parts: seq<string>)
    ensures |parts| >= 1
    ensures forall i :: 0 <= i < |parts| ==> sep !in parts[i]
  {
    if s == [] then [""]
    else
      var rest := Split(s[1..], sep);
      if s[0] == sep then [""] + rest
      else [[s[0]] + rest[0]] + rest[1..]
  }

  /** `parts.join(sep)` */
  function Join(parts: seq<string>, sep: string): string {
    if parts == [] then ""
    else if |parts| == 1 then parts[0]
    else parts[0] + sep + Join(parts[1..], sep)
  }

  /** Joining the pieces with the separator gives back the string: `split` loses nothing. */
  lemma {:induction false} JoinSplit(s: string, sep: char)
    ensures Join(Split(s, sep), [sep]) == s
  {
    if s != [] {
      var rest := Split(s[1..], sep);
      JoinSplit(s[1..], sep);
      if |rest| > 1 {
        assert Join(rest, [sep]) == rest[0] + [sep] + Join(rest[1..], [sep]);
      }
      if s[0] == sep {
        assert Split(s, sep) == [""] + rest;
        assert ([""] + rest)[1..] == rest;
      } else {
        var parts := [[s[0]] + rest[0]] + rest[1..];
        assert Split(s, sep) == parts;
        assert parts[1..] == rest[1..];
      }
    }
  }

  /** Splitting a separator-free word followed by a tail glues the word onto the tail's first piece. */
  lemma {:induction false} SplitWordThenTail(w: string, tail: string, sep: char)
    requires sep !in w
    ensures var rest := Split(tail, sep);
      Split(w + tail, sep) == [w + rest[0]] + rest[1..]
  {
    if w != [] {
      SplitWordThenTail(w[1..], tail, sep);
      assert (w + tail)[1..] == w[1..] + tail;
      assert (w + tail)[0] == w[0];
      assert [w[0]] + (w[1..] + Split(tail, sep)[0]) == w + Split(tail, sep)[0];
    } else {
      var rest := Split(tail, sep);
      assert w + tail == tail;
      assert rest == [rest[0]] + rest[1..];
      assert w + rest[0] == rest[0];
    }
  }

  /** Splitting joined separator-free pieces gives back the pieces: `join` loses nothing either. */
  lemma {:induction false} SplitJoin(parts: seq<string>, sep: char)
    requires |parts| >= 1
    requires forall i :: 0 <= i < |parts| ==> sep !in parts[i]
    ensures Split(Join(parts, [sep]), sep) == parts
  {
    if |parts| == 1 {
      SplitWordThenTail(parts[0], "", sep);
      assert parts[0] + "" == parts[0];
    } else {
      var tail := Join(parts[1..], [sep]);
      SplitJoin(parts[1..], sep);
      assert Split([sep] + tail, sep) == [""] + parts[1..];
      SplitWordThenTail(parts[0], [sep] + tail, sep);
      assert Join(parts, [sep]) == parts[0] + ([sep] + tail);
      assert parts[0] + "" == parts[0];
      assert parts == [parts[0]] + parts[1..];
    }
  }

  /** A string without the separator is a single piece. */
  lemma SplitWithoutSeparator(s: string, sep: char)
    requires sep !in s
    ensures Split(s, sep) == [s]
  {
    SplitWordThenTail(s, "", sep);
    assert s + "" == s;
  }

  // ---------------------------------------------------------------- line terminators

  /** `s.split(/\r\n|\r|\n/)`: the alternation tries `\r\n` first, so a CRLF ends one line. */
  function SplitLines(s: string): (lines: seq<string>)
    ensures |lines| >= 1
    ensures forall i :: 0 <= i < |lines| ==> '\r' !in lines[i] && '\n' !in lines[i]
  {
    if s == [] then [""]
    else if |s| >= 2 && s[0] == '\r' && s[1] == '\n' then [""] + SplitLines(s[2..])
    else if s[0] == '\r' || s[0] == '\n' then [""] + SplitLines(s[1..])
    else
      var rest := SplitLines(s[1..]);
      [[s[0]] + rest[0]] + rest[1..]
  }

  /** The number of line terminators, scanning left to right with a CRLF counted once. */
  function Terminators(s: string): nat {
    if s == [] then 0
    else if |s| >= 2 && s[0] == '\r' && s[1] == '\n' then 1 + Terminators(s[2..])
    else if s[0] == '\r' || s[0] == '\n' then 1 + Terminators(s[1..])
    else Terminators(s[1..])
  }

  /** The length of `s.split(/\r\n|\r|\n/)`, the count the readers log. */
  function LineCount(s: string): nat {
    |SplitLines(s)|
  }

  lemma {:induction false} LineCountIsTerminatorsPlusOne(s: string)
    ensures LineCount(s) == Terminators(s) + 1
  {
    if s == [] {
    } else if |s| >= 2 && s[0] == '\r' && s[1] == '\n' {
      LineCountIsTerminatorsPlusOne(s[2..]);
    } else if s[0] == '\r' || s[0] == '\n' {
      LineCountIsTerminatorsPlusOne(s[1..]);
    } else {
      LineCountIsTerminatorsPlusOne(s[1..]);
    }
  }

  /** Terminators add up across a cut, unless the cut falls inside a CRLF. */
  lemma {:induction false} TerminatorsConcat(a: string, b: string)
    requires !(a != [] && a[|a| - 1] == '\r' && b != [] && b[0] == '\n')
    ensures Terminators(a + b) == Terminators(a) + Terminators(b)
  {
    if a == [] {
      assert a + b == b;
    } else if |a| >= 2 && a[0] == '\r' && a[1] == '\n' {
      assert (a + b)[2..] == a[2..] + b;
      TerminatorsConcat(a[2..], b);
    } else if |a| == 1 && a[0] == '\r' {
      assert (a + b)[1..] == b;
    } else {
      assert (a + b)[1..] == a[1..] + b;
      TerminatorsConcat(a[1..], b);
    }
  }

  /** A CRLF ends exactly one line, wherever it stands. */
  lemma CrLfCountsOnce(a: string, b: string)
    ensures LineCount(a + "\r\n" + b) == LineCount(a) + LineCount(b)
  {
    TerminatorsConcat(a, "\r\n");
    TerminatorsConcat(a + "\r\n", b);
    LineCountIsTerminatorsPlusOne(a + "\r\n" + b);
    LineCountIsTerminatorsPlusOne(a);
    LineCountIsTerminatorsPlusOne(b);
  }

  // ---------------------------------------------------------------- whitespace replacement

  /** The class `[\n\r\t]` of the first alternative. */
  predicate IsControlWs(c: char) {
    c == '\n' || c == '\r' || c == '\t'
  }

  /** The length of the whitespace run `\s+` matches at the start of `s`. */
  function WsRun(s: string): (k: nat)
    ensures k <= |s|
    ensures IsBlank(s[..k])
    ensures k < |s| ==> !IsWs(s[k])
    ensures s != [] && IsWs(s[0]) ==> k >= 1
  {
    if s != [] && IsWs(s[0]) then
      var k := 1 + WsRun(s[1..]);
      assert s[..k] == [s[0]] + s[1..][..k - 1];
      k
    else
      0
  }

  /**
   * `s.replace(/[\n\r\t]|\s+/gm, ' ')`. At each position the first
   * alternative is tried first, so a `\n`, `\r` or `\t` is replaced on its
   * own; only a run that starts with some other whitespace character is
   * matched by `\s+` as a whole (control characters inside it included) and
   * becomes one space.
   */
  function Normalize(s: string): (r: string)
    ensures |r| <= |s|
    ensures forall i :: 0 <= i < |r| && IsWs(r[i]) ==> r[i] == ' '
    decreases |s|
  {
    if s == [] then ""
    else if IsControlWs(s[0]) then " " + Normalize(s[1..])
    else if IsWs(s[0]) then " " + Normalize(s[WsRun(s)..])
    else [s[0]] + Normalize(s[1..])
  }

  /** The non-whitespace characters of `s`, in order. */
  function Visible(s: string): string {
    if s == [] then ""
    else if IsWs(s[0]) then Visible(s[1..])
    else [s[0]] + Visible(s[1..])
  }

  lemma {:induction false} VisibleConcat(a: string, b: string)
    ensures Visible(a + b) == Visible(a) + Visible(b)
  {
    if a == [] {
      assert a + b == b;
    } else {
      assert (a + b)[1..] == a[1..] + b;
      VisibleConcat(a[1..], b);
    }
  }

  lemma {:induction false} VisibleOfBlank(s: string)
    requires IsBlank(s)
    ensures Visible(s) == ""
  {
    if s != [] {
      VisibleOfBlank(s[1..]);
    }
  }

  /** The replacement touches only whitespace: every other character survives, in order. */
  lemma {:induction false} NormalizeKeepsText(s: string)
    ensures Visible(Normalize(s)) == Visible(s)
  {
    if s == [] {
    } else if IsControlWs(s[0]) {
      NormalizeKeepsText(s[1..]);
      VisibleConcat(" ", Normalize(s[1..]));
    } else if IsWs(s[0]) {
      var k := WsRun(s);
      NormalizeKeepsText(s[k..]);
      VisibleConcat(" ", Normalize(s[k..]));
      assert s == s[..k] + s[k..];
      VisibleConcat(s[..k], s[k..]);
      VisibleOfBlank(s[..k]);
    } else {
      NormalizeKeepsText(s[1..]);
      VisibleConcat([s[0]], Normalize(s[1..]));
    }
  }

  /** Text whose only whitespace is single, isolated spaces comes out unchanged. */
  lemma {:induction false} NormalizeFixesSpacedText(s: string)
    requires forall i :: 0 <= i < |s| && IsWs(s[i]) ==> s[i] == ' '
    requires forall i :: 0 <= i < |s| - 1 && IsWs(s[i]) ==> !IsWs(s[i + 1])
    ensures Normalize(s) == s
  {
    if s != [] {
      NormalizeFixesSpacedText(s[1..]);
      if IsWs(s[0]) {
        assert WsRun(s) == 1 by {
          if |s| > 1 { assert !IsWs(s[1]); }
        }
      }
    }
  }

  /** Every `\n`, `\r` and `\t` becomes a space of its own: a run of them keeps its length. */
  lemma {:induction false} NormalizeControlRun(s: string)
    requires forall i :: 0 <= i < |s| ==> IsControlWs(s[i])
    ensures Normalize(s) == seq(|s|, _ => ' ')
  {
    if s != [] {
      NormalizeControlRun(s[1..]);
      assert " " + seq(|s| - 1, _ => ' ') == seq(|s|, _ => ' ');
    }
  }

  /** A whitespace run that starts with any other whitespace character collapses into one space. */
  lemma NormalizeCollapsesRun(s: string)
    requires s != [] && IsBlank(s) && !IsControlWs(s[0])
    ensures Normalize(s) == " "
  {
    assert WsRun(s) == |s|;
  }

  /** The number of `\n`, `\r` and `\t` characters at the start of `s`. */
  function LeadingControl(s: string): (c: nat)
    ensures c <= |s|
    ensures forall i :: 0 <= i < c ==> IsControlWs(s[i])
    ensures c < |s| ==> !IsControlWs(s[c])
  {
    if s != [] && IsControlWs(s[0]) then 1 + LeadingControl(s[1..]) else 0
  }

  /**
   * A whitespace-only string: each leading `\n`, `\r` or `\t` becomes a space
   * of its own, and whatever follows them, control characters included,
   * becomes one more space.
   */
  lemma {:induction false} NormalizeBlank(s: string)
    requires IsBlank(s)
    ensures var c := LeadingControl(s);
      Normalize(s) == seq(c, _ => ' ') + (if c < |s| then " " else "")
  {
    if s != [] {
      NormalizeStep(s);
      if IsControlWs(s[0]) {
        var c := LeadingControl(s[1..]);
        assert IsBlank(s[1..]);
        NormalizeBlank(s[1..]);
        SpacesCons(c);
        ConcatAssoc(" ", seq(c, _ => ' '), if c < |s| - 1 then " " else "");
      } else {
        assert WsRun(s) == |s|;
        assert s[|s|..] == [];
      }
    }
  }

  lemma SpacesCons(c: nat)
    ensures " " + seq(c, _ => ' ') == seq(c + 1, _ => ' ')
  {
  }

  /** `\s+` started inside `a` stops inside `a` when the join of `a` and `b` is not whitespace on both sides. */
  lemma {:induction false} WsRunConcat(a: string, b: string)
    requires a != [] && (b == [] || !IsWs(a[|a| - 1]) || !IsWs(b[0]))
    ensures WsRun(a + b) == WsRun(a)
  {
    if IsWs(a[0]) {
      assert (a + b)[1..] == a[1..] + b;
      if |a| > 1 {
        WsRunConcat(a[1..], b);
      } else {
        assert a[1..] + b == b;
      }
    }
  }

  lemma ConcatAssoc(p: string, q: string, r: string)
    ensures p + (q + r) == (p + q) + r
  {
  }

  /** How far one match (or one kept character) reaches at the start of a non-empty `s`. */
  function MatchLength(s: string): (k: nat)
    requires s != []
    ensures 1 <= k <= |s|
  {
    if !IsControlWs(s[0]) && IsWs(s[0]) then WsRun(s) else 1
  }

  /** One step of the replacement: what the first match (or character) becomes, then the rest. */
  lemma NormalizeStep(s: string)
    requires s != []
    ensures Normalize(s) == (if IsWs(s[0]) then " " else [s[0]]) + Normalize(s[MatchLength(s)..])
  {
  }

  /**
   * The replacement works piecewise: two texts that do not meet in the
   * middle of a whitespace run are replaced independently. With
   * `NormalizeBlank` this gives the effect on every run inside text.
   */
  lemma {:induction false} NormalizeConcat(a: string, b: string)
    requires a == [] || b == [] || !IsWs(a[|a| - 1]) || !IsWs(b[0])
    ensures Normalize(a + b) == Normalize(a) + Normalize(b)
    decreases |a|
  {
    if a == [] {
      assert a + b == b;
    } else {
      var k := MatchLength(a);
      var rest := a[k..];
      MatchLengthConcat(a, b);
      NormalizeStep(a);
      NormalizeStep(a + b);
      NormalizeConcat(rest, b);
      ConcatAssoc(if IsWs(a[0]) then " " else [a[0]], Normalize(rest), Normalize(b));
    }
  }

  /**
   * A whitespace run `w` between two texts: its leading `\n`, `\r` and `\t`
   * each become a space, and the rest of the run one more space, so
   * `"a\n\nb"` gives `"a  b"` while `"a \n b"` gives `"a b"`.
   */
  lemma NormalizeRunInText(a: string, w: string, b: string)
    requires a == [] || !IsWs(a[|a| - 1])
    requires IsBlank(w)
    requires b == [] || !IsWs(b[0])
    ensures var c := LeadingControl(w);
      Normalize(a + w + b) == Normalize(a) + (seq(c, _ => ' ') + (if c < |w| then " " else "")) + Normalize(b)
  {
    assert a + w + b == a + (w + b);
    NormalizeConcat(w, b);
    if w != [] {
      assert (w + b)[0] == w[0];
    } else {
      assert w + b == b;
    }
    NormalizeConcat(a, w + b);
    NormalizeBlank(w);
    ConcatAssoc(Normalize(a), Normalize(w), Normalize(b));
  }

  lemma NormalizeVisibleChar(c: char)
    requires !IsWs(c)
    ensures Normalize([c]) == [c]
  {
    assert [c][1..] == [];
  }

  /** Two line feeds inside text become two spaces. */
  lemma NormalizeControlRunExample()
    ensures Normalize("a\n\nb") == "a  b"
  {
    var w := "\n\n";
    assert IsBlank(w) by {
      assert forall i :: 0 <= i < |w| ==> w[i] == '\n';
    }
    assert LeadingControl(w) == 2 by {
      assert LeadingControl(w[1..]) == 1;
    }
    NormalizeRunInText("a", w, "b");
    assert "a" + w + "b" == "a\n\nb";
    assert seq(2, _ => ' ') + "" == "  ";
    NormalizeVisibleChar('a');
    NormalizeVisibleChar('b');
  }

  /** A run that starts with a space becomes one space, the line feed inside it included. */
  lemma NormalizeSpacedRunExample()
    ensures Normalize("a \n b") == "a b"
  {
    var w := " \n ";
    assert IsBlank(w) by {
      assert forall i :: 0 <= i < |w| ==> IsWs(w[i]);
    }
    assert LeadingControl(w) == 0;
    NormalizeRunInText("a", w, "b");
    assert "a" + w + "b" == "a \n b";
    NormalizeVisibleChar('a');
    NormalizeVisibleChar('b');
  }

  /** The first match of `a + b` is the first match of `a`, and the rest continues with `b`. */
  lemma MatchLengthConcat(a: string, b: string)
    requires a != [] && (b == [] || !IsWs(a[|a| - 1]) || !IsWs(b[0]))
    ensures (a + b)[0] == a[0] && MatchLength(a + b) == MatchLength(a)
    ensures (a + b)[MatchLength(a)..] == a[MatchLength(a)..] + b
    ensures var rest := a[MatchLength(a)..]; rest == [] || rest[|rest| - 1] == a[|a| - 1]
  {
    if !IsControlWs(a[0]) && IsWs(a[0]) {
      WsRunConcat(a, b);
    }
  }

  /** Whitespace at the end of the input leaves a space at the end of the output. */
  lemma {:induction false} NormalizeKeepsTrailingSpace(s: string)
    requires s != [] && IsWs(s[|s| - 1])
    ensures var r := Normalize(s); r != [] && r[|r| - 1] == ' '
    decreases |s|
  {
    if IsControlWs(s[0]) {
      NormalizeTailKeepsSpace(s, 1, " ");
    } else if IsWs(s[0]) {
      NormalizeTailKeepsSpace(s, WsRun(s), " ");
    } else {
      NormalizeTailKeepsSpace(s, 1, [s[0]]);
    }
  }

  /** The recursive step of `NormalizeKeepsTrailingSpace`: a prefix put before the rest's normal form. */
  lemma {:induction false} NormalizeTailKeepsSpace(s: string, k: nat, head: string)
    requires s != [] && IsWs(s[|s| - 1])
    requires 1 <= k <= |s| && Normalize(s) == head + Normalize(s[k..])
    requires k == |s| ==> head == " "
    ensures var r := Normalize(s); r != [] && r[|r| - 1] == ' '
    decreases |s|, 0
  {
    if k < |s| {
      var rest := s[k..];
      assert rest[|rest| - 1] == s[|s| - 1];
      NormalizeKeepsTrailingSpace(rest);
      var tail := Normalize(rest);
      assert (head + tail)[|head + tail| - 1] == tail[|tail| - 1];
    } else {
      assert s[k..] == [];
    }
  }
}
