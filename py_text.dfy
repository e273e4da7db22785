/** The few Python string built-ins the report scripts rely on:
    `str.strip()`, `str.split(sep)`, `str.capitalize()` and `os.path.join`
    (POSIX flavour), each with the property that makes it what it is. */
module PyText {

  /** The characters `str.isspace()` accepts, which `str.strip()` with no
      argument removes. */
  predicate IsSpace(c: char) {
    || c == ' '
    || '\t' <= c <= '\r'
    || '\U{1c}' <= c <= '\U{1f}'
    || c == '\U{85}' || c == '\U{a0}' || c == '\U{1680}'
    || '\U{2000}' <= c <= '\U{200a}'
    || c == '\U{2028}' || c == '\U{2029}' || c == '\U{202f}' || c == '\U{205f}' || c == '\U{3000}'
  }

  predicate AllSpace(s: string) {
    forall k :: 0 <= k < |s| ==> IsSpace(s[k])
  }

  /** No whitespace at either end: what `str.strip()` leaves behind. */
  predicate Trimmed(s: string) {
    s == [] || (!IsSpace(s[0]) && !IsSpace(s[|s| - 1]))
  }

  /** Removes leading whitespace, up to the first non-space character
      (`LStripShape` says that only whitespace went). */
  function LStrip(s: string): (r: string)
    ensures |r| <= |s|
    ensures r == [] || !IsSpace(r[0])
  {
    if s != [] && IsSpace(s[0]) then LStrip(s[1..]) else s
  }

  /** `LStrip` keeps a suffix and drops only whitespace before it. */
  lemma {:induction false} LStripShape(s: string)
    ensures LStrip(s) == s[|s| - |LStrip(s)|..]
    ensures AllSpace(s[..|s| - |LStrip(s)|])
    decreases |s|
  {
    if s != [] && IsSpace(s[0]) {
      LStripShape(s[1..]);
      var r := LStrip(s);
      assert s[|s| - |r|..] == s[1..][|s[1..]| - |r|..];
      forall k | 0 <= k < |s| - |r| ensures IsSpace(s[k]) {
        if k > 0 { assert s[k] == s[1..][..|s[1..]| - |r|][k - 1]; }
      }
    }
  }

  /** Removes trailing whitespace, back to the last non-space character
      (`RStripShape` says that only whitespace went). */
  function RStrip(s: string): (r: string)
    ensures |r| <= |s|
    ensures r != [] ==> r[0] == s[0]
    ensures r == [] || !IsSpace(r[|r| - 1])
  {
    if s != [] && IsSpace(s[|s| - 1]) then RStrip(s[..|s| - 1]) else s
  }

  /** `RStrip` keeps a prefix and drops only whitespace after it. */
  lemma {:induction false} RStripShape(s: string)
    ensures RStrip(s) == s[..|RStrip(s)|]
    ensures AllSpace(s[|RStrip(s)|..])
    decreases |s|
  {
    if s != [] && IsSpace(s[|s| - 1]) {
      var t := s[..|s| - 1];
      RStripShape(t);
      var r := RStrip(s);
      assert t[..|r|] == s[..|r|];
      forall k | |r| <= k < |s| ensures IsSpace(s[k]) {
        if k < |s| - 1 { assert s[k] == t[|r|..][k - |r|]; }
      }
    }
  }

  /** How many leading characters `Strip` removes. */
  function StripStart(s: string): (i: nat)
    ensures i <= |s|
  {
    |s| - |LStrip(s)|
  }

  /** `str.strip()`: whitespace removed from both ends (`StripShape` says
      what is left and what went). */
  function Strip(s: string): (r: string)
    ensures |r| <= |s|
  {
    RStrip(LStrip(s))
  }

  /** `s` is whitespace, then `Strip(s)`, then whitespace, and `Strip(s)`
      has no whitespace at either end. */
  lemma {:induction false} StripShape(s: string)
    ensures StripStart(s) + |Strip(s)| <= |s| && Strip(s) == s[StripStart(s)..StripStart(s) + |Strip(s)|]
    ensures AllSpace(s[..StripStart(s)]) && AllSpace(s[StripStart(s) + |Strip(s)|..])
    ensures Trimmed(Strip(s))
  {
    var l := LStrip(s);
    var r := RStrip(l);
    LStripShape(s);
    RStripShape(l);
    assert r == [] ==> AllSpace(l);
    assert l == s[StripStart(s)..];
    assert s[StripStart(s) + |r|..] == l[|r|..];
  }

  lemma {:induction false} LStripPastSpaces(a: string, m: string)
    requires AllSpace(a) && (m == [] || !IsSpace(m[0]))
    ensures LStrip(a + m) == m
    decreases |a|
  {
    if a != [] {
      assert (a + m)[1..] == a[1..] + m;
      LStripPastSpaces(a[1..], m);
    } else {
      assert a + m == m;
    }
  }

  lemma {:induction false} RStripPastSpaces(m: string, b: string)
    requires AllSpace(b) && (m == [] || !IsSpace(m[|m| - 1]))
    ensures RStrip(m + b) == m
    decreases |b|
  {
    if b != [] {
      assert (m + b)[..|m + b| - 1] == m + b[..|b| - 1];
      RStripPastSpaces(m, b[..|b| - 1]);
    } else {
      assert m + b == m;
    }
  }

  /** `Strip` is determined by its contract: whatever is wrapped in whitespace
      on both sides and trimmed itself is exactly what `Strip` returns. */
  lemma {:induction false} StripExact(a: string, m: string, b: string)
    requires AllSpace(a) && AllSpace(b) && Trimmed(m)
    ensures Strip(a + m + b) == m
  {
    if m == [] {
      assert a + m + b == a + b;
      assert AllSpace(a + b);
      LStripPastSpaces(a + b, []);
      assert a + b + [] == a + b;
      RStripPastSpaces([], []);
    } else {
      assert a + m + b == a + (m + b);
      LStripPastSpaces(a, m + b);
      RStripPastSpaces(m, b);
    }
  }

  lemma {:induction false} StripDecomposes(s: string)
    ensures s == s[..StripStart(s)] + Strip(s) + s[StripStart(s) + |Strip(s)|..]
  {
    StripShape(s);
    var i, r := StripStart(s), Strip(s);
    assert s == s[..i] + s[i..i + |r|] + s[i + |r|..];
  }

  lemma {:induction false} AllSpaceConcat(a: string, b: string)
    requires AllSpace(a) && AllSpace(b)
    ensures AllSpace(a + b)
  {
    forall k | 0 <= k < |a + b| ensures IsSpace((a + b)[k]) {
      if k < |a| { assert (a + b)[k] == a[k]; } else { assert (a + b)[k] == b[k - |a|]; }
    }
  }

  /** Whitespace appended to a text (a trailing newline, say) changes nothing
      that `Strip` returns. */
  lemma {:induction false} StripIgnoresTrailingSpace(s: string, ws: string)
    requires AllSpace(ws)
    ensures Strip(s + ws) == Strip(s)
  {
    var i, r := StripStart(s), Strip(s);
    var a, b := s[..i], s[i + |r|..];
    StripShape(s);
    StripDecomposes(s);
    AllSpaceConcat(b, ws);
    assert s + ws == a + r + (b + ws);
    StripExact(a, r, b);
    StripExact(a, r, b + ws);
  }

  /** The inverse of `Split`: the pieces glued back together with `sep`. */
  function Join(pieces: seq<string>, sep: char): string
    requires |pieces| >= 1
  {
    if |pieces| == 1 then pieces[0] else pieces[0] + [sep] + Join(pieces[1..], sep)
  }

  /** `str.split(sep)` for a one-character separator: the pieces between the
      occurrences of `sep`, one more piece than there are separators
      (`SplitPiecesHaveNoSep` and `JoinSplit` say the rest). */
  function Split(s: string, sep: char): (r: seq<string>)
    ensures |r| == multiset(s)[sep] + 1
  {
    if s == [] then [[]]
    else
      var rest := Split(s[1..], sep);
      assert s == [s[0]] + s[1..];
      assert multiset(s) == multiset([s[0]]) + multiset(s[1..]);
      if s[0] == sep then [[]] + rest
      else [[s[0]] + rest[0]] + rest[1..]
  }

  lemma {:induction false} JoinPrepend(c: char, pieces: seq<string>, sep: char)
    requires |pieces| >= 1
    ensures Join([[c] + pieces[0]] + pieces[1..], sep) == [c] + Join(pieces, sep)
  {
    var r := [[c] + pieces[0]] + pieces[1..];
    if |pieces| > 1 {
      assert r[1..] == pieces[1..];
      assert Join(r, sep) == [c] + pieces[0] + [sep] + Join(pieces[1..], sep);
    }
  }

  /** `Split` on a text that starts with the separator: an empty first
      piece, then the pieces of the rest. */
  lemma SplitSepFirst(s: string, sep: char)
    requires s != [] && s[0] == sep
    ensures Split(s, sep) == [[]] + Split(s[1..], sep)
  {
  }

  /** `Split` on a text that starts with another character: that character
      opens the first piece of the rest. */
  lemma SplitOtherFirst(s: string, sep: char)
    requires s != [] && s[0] != sep
    ensures Split(s, sep) == [[s[0]] + Split(s[1..], sep)[0]] + Split(s[1..], sep)[1..]
  {
  }

  lemma JoinPrependEmpty(pieces: seq<string>, sep: char)
    requires |pieces| >= 1
    ensures Join([[]] + pieces, sep) == [sep] + Join(pieces, sep)
  {
    var r := [[]] + pieces;
    assert r[1..] == pieces;
  }

  /** Joining the pieces of `Split` with the separator gives back the text. */
  lemma {:induction false} JoinSplit(s: string, sep: char)
    ensures Join(Split(s, sep), sep) == s
  {
    if s != [] {
      var rest := Split(s[1..], sep);
      JoinSplit(s[1..], sep);
      assert s == [s[0]] + s[1..];
      if s[0] == sep {
        SplitSepFirst(s, sep);
        JoinPrependEmpty(rest, sep);
      } else {
        SplitOtherFirst(s, sep);
        JoinPrepend(s[0], rest, sep);
      }
    }
  }

  /** No piece of `Split` holds the separator. */
  lemma {:induction false} SplitPiecesHaveNoSep(s: string, sep: char)
    ensures forall k :: 0 <= k < |Split(s, sep)| ==> sep !in Split(s, sep)[k]
  {
    if s != [] {
      SplitPiecesHaveNoSep(s[1..], sep);
    }
  }

  lemma {:induction false} SplitNoSep(a: string, sep: char)
    requires sep !in a
    ensures Split(a, sep) == [a]
  {
    if a != [] {
      SplitNoSep(a[1..], sep);
      assert [a[0]] + a[1..] == a;
    }
  }

  lemma {:induction false} SplitAtSep(a: string, b: string, sep: char)
    requires sep !in a
    ensures Split(a + [sep] + b, sep) == [a] + Split(b, sep)
    decreases |a|
  {
    if a == [] {
      assert a + [sep] + b == [sep] + b;
      assert ([sep] + b)[1..] == b;
    } else {
      var s := a + [sep] + b;
      assert s[1..] == a[1..] + [sep] + b;
      SplitAtSep(a[1..], b, sep);
      assert [a[0]] + a[1..] == a;
    }
  }

  /** `Split` undoes `Join` whenever no piece holds the separator. */
  lemma {:induction false} SplitJoin(pieces: seq<string>, sep: char)
    requires |pieces| >= 1
    requires forall k :: 0 <= k < |pieces| ==> sep !in pieces[k]
    ensures Split(Join(pieces, sep), sep) == pieces
    decreases |pieces|
  {
    if |pieces| == 1 {
      SplitNoSep(pieces[0], sep);
    } else {
      SplitJoin(pieces[1..], sep);
      SplitAtSep(pieces[0], Join(pieces[1..], sep), sep);
      assert [pieces[0]] + pieces[1..] == pieces;
    }
  }

  function Upper(c: char): char {
    if 'a' <= c <= 'z' then (c as int - 32) as char else c
  }

  function Lower(c: char): char {
    if 'A' <= c <= 'Z' then (c as int + 32) as char else c
  }

  /** `str.capitalize()` on ASCII letters: the first character upper case,
      every later one lower case, nothing else changed. */
  function Capitalize(s: string): (r: string)
    ensures |r| == |s|
    ensures r != [] ==> r[0] == Upper(s[0])
    ensures forall k :: 1 <= k < |r| ==> r[k] == Lower(s[k])
  {
    if s == [] then [] else [Upper(s[0])] + seq(|s| - 1, k requires 0 <= k < |s| - 1 => Lower(s[k + 1]))
  }

  /** Capitalising twice is capitalising once. */
  lemma CapitalizeIdempotent(s: string)
    ensures Capitalize(Capitalize(s)) == Capitalize(s)
  {
    var c := Capitalize(s);
    var cc := Capitalize(c);
    assert |cc| == |c|;
    forall k | 0 <= k < |c| ensures cc[k] == c[k] {
    }
  }

  /** `os.path.join(a, b)` on POSIX: `b` alone when it is absolute, otherwise
      `a`, then a `/` unless `a` is empty or already ends in one, then `b`. */
  function PathJoin(a: string, b: string): (r: string)
    ensures |b| <= |r| && r[|r| - |b|..] == b
    ensures b != [] && b[0] == '/' ==> r == b
    ensures (b == [] || b[0] != '/') ==> |a| <= |r| && r[..|a|] == a
    ensures (b == [] || b[0] != '/') ==> |r| == |a| + |b| + (if a == [] || a[|a| - 1] == '/' then 0 else 1)
    ensures (b == [] || b[0] != '/') && a != [] && a[|a| - 1] != '/' ==> r[|a|] == '/'
  {
    if b != [] && b[0] == '/' then b
    else if a == [] || a[|a| - 1] == '/' then a + b
    else a + "/" + b
  }
}
