/** Splitting, joining and trimming of text, with the laws that make parsing
    invert formatting. */
module Splitting {
  import opened Wrappers

  function SplitOnce(s: string, sep: char): Option<(string, string)> {
    if s == "" then None
    else if s[0] == sep then Some(("", s[1..]))
    else
      match SplitOnce(s[1..], sep)
      case None => None
      case Some((before, after)) => Some(([s[0]] + before, after))
  }

  function Split(s: string, sep: char): (parts: seq<string>)
    ensures |parts| >= 1
  {
    if s == "" then [""] else Put(s[0], sep, Split(s[1..], sep))
  }

  // One more character in front of text that splits into `parts`.
  function Put(c: char, sep: char, parts: seq<string>): (r: seq<string>)
    requires |parts| >= 1
    ensures |r| >= 1
  {
    if c == sep then [""] + parts else [[c] + parts[0]] + parts[1..]
  }

  function Join(parts: seq<string>, sep: char): string {
    if |parts| == 0 then ""
    else if |parts| == 1 then parts[0]
    else parts[0] + [sep] + Join(parts[1..], sep)
  }

  // The first separator is where the text is cut, wherever more of them are.
  lemma {:induction false} SplitOnceMeaning(s: string, sep: char, before: string, after: string)
    ensures SplitOnce(s, sep) == Some((before, after)) <==> s == before + [sep] + after && sep !in before
  {
    if s == "" {
    } else if s[0] == sep {
      if s == before + [sep] + after && sep !in before {
        assert before == "";
        assert s[1..] == after;
      }
      assert s == "" + [sep] + s[1..];
    } else if before == "" {
    } else {
      SplitOnceMeaning(s[1..], sep, before[1..], after);
      assert before == [before[0]] + before[1..];
      assert s == [s[0]] + s[1..];
      if s == before + [sep] + after && sep !in before {
        assert s[1..] == before[1..] + [sep] + after;
      }
      if SplitOnce(s, sep) == Some((before, after)) {
        assert SplitOnce(s[1..], sep) == Some((before[1..], after));
      }
    }
  }

  lemma PutJoin(c: char, sep: char, parts: seq<string>)
    requires |parts| >= 1 && forall i :: 0 <= i < |parts| ==> sep !in parts[i]
    ensures Join(Put(c, sep, parts), sep) == [c] + Join(parts, sep)
    ensures forall i :: 0 <= i < |Put(c, sep, parts)| ==> sep !in Put(c, sep, parts)[i]
  {
    var r := Put(c, sep, parts);
    if c == sep {
      assert r[1..] == parts;
    } else {
      assert r[1..] == parts[1..];
    }
  }

  lemma {:induction false} JoinSplit(s: string, sep: char)
    ensures Join(Split(s, sep), sep) == s
    ensures forall i :: 0 <= i < |Split(s, sep)| ==> sep !in Split(s, sep)[i]
  {
    if s != "" {
      JoinSplit(s[1..], sep);
      PutJoin(s[0], sep, Split(s[1..], sep));
      assert s == [s[0]] + s[1..];
    }
  }

  lemma {:induction false} SplitJoin(parts: seq<string>, sep: char)
    requires |parts| >= 1 && forall i :: 0 <= i < |parts| ==> sep !in parts[i]
    ensures Split(Join(parts, sep), sep) == parts
  {
    var first := parts[0];
    if |parts| == 1 {
      SplitNoSeparator(first, sep);
    } else {
      SplitJoin(parts[1..], sep);
      SplitPrefix(first, Join(parts[1..], sep), sep);
      assert parts == [first] + parts[1..];
    }
  }

  lemma {:induction false} SplitNoSeparator(s: string, sep: char)
    requires sep !in s
    ensures Split(s, sep) == [s]
  {
    if s != "" {
      assert s[0] in s && s == [s[0]] + s[1..];
      SplitNoSeparator(s[1..], sep);
    }
  }

  lemma {:induction false} SplitPrefix(first: string, rest: string, sep: char)
    requires sep !in first
    ensures Split(first + [sep] + rest, sep) == [first] + Split(rest, sep)
  {
    var s := first + [sep] + rest;
    if first == "" {
      assert s[1..] == rest;
    } else {
      assert s[0] == first[0] && first[0] in first && first == [first[0]] + first[1..];
      SplitPrefix(first[1..], rest, sep);
      assert s[1..] == first[1..] + [sep] + rest;
    }
  }

  lemma PutConcat(c: char, sep: char, head: seq<string>, tail: seq<string>)
    requires |head| >= 1
    ensures Put(c, sep, head + tail) == Put(c, sep, head) + tail
  {
    if c == sep {
      assert [""] + (head + tail) == [""] + head + tail;
    } else {
      assert (head + tail)[1..] == head[1..] + tail;
    }
  }

  lemma {:induction false} SplitConcat(a: string, b: string, sep: char)
    ensures Split(a + [sep] + b, sep) == Split(a, sep) + Split(b, sep)
  {
    var s := a + [sep] + b;
    if a == "" {
      assert s[1..] == b;
    } else {
      var rest := a[1..] + [sep] + b;
      assert s[1..] == rest && s[0] == a[0];
      calc {
        Split(s, sep);
        Put(a[0], sep, Split(rest, sep));
        { SplitConcat(a[1..], b, sep); }
        Put(a[0], sep, Split(a[1..], sep) + Split(b, sep));
        { PutConcat(a[0], sep, Split(a[1..], sep), Split(b, sep)); }
        Put(a[0], sep, Split(a[1..], sep)) + Split(b, sep);
        Split(a, sep) + Split(b, sep);
      }
    }
  }

  lemma {:induction false} JoinSnoc(parts: seq<string>, last: string, sep: char)
    requires parts != []
    ensures Join(parts + [last], sep) == Join(parts, sep) + [sep] + last
  {
    if |parts| > 1 {
      JoinSnoc(parts[1..], last, sep);
      assert (parts + [last])[1..] == parts[1..] + [last];
    } else {
      assert (parts + [last])[1..] == [last];
    }
  }

  // ----- White space -----

  // The characters with the Unicode White_Space property.
  predicate IsWhitespace(c: char) {
    var n := c as int;
    9 <= n <= 13 || n == 0x20 || n == 0x85 || n == 0xA0 || n == 0x1680 || 0x2000 <= n <= 0x200A
    || n == 0x2028 || n == 0x2029 || n == 0x202F || n == 0x205F || n == 0x3000
  }

  predicate IsAsciiWhitespace(c: char) {
    c == ' ' || c == '\t' || c == '\n' || c as int == 12 || c == '\r'
  }

  predicate Blank(s: string) {
    forall i :: 0 <= i < |s| ==> IsWhitespace(s[i])
  }

  predicate Trimmed(s: string) {
    s == "" || (!IsWhitespace(s[0]) && !IsWhitespace(s[|s| - 1]))
  }

  function TrimStart(s: string): string {
    if s != "" && IsWhitespace(s[0]) then TrimStart(s[1..]) else s
  }

  function TrimEnd(s: string): string {
    if s != "" && IsWhitespace(s[|s| - 1]) then TrimEnd(s[..|s| - 1]) else s
  }

  function Trim(s: string): string {
    TrimEnd(TrimStart(s))
  }

  lemma {:induction false} TrimStartCuts(s: string) returns (left: string)
    ensures Blank(left) && s == left + TrimStart(s)
    ensures TrimStart(s) == "" || !IsWhitespace(TrimStart(s)[0])
  {
    left := "";
    if s != "" && IsWhitespace(s[0]) {
      var rest := TrimStartCuts(s[1..]);
      left := [s[0]] + rest;
      assert s == [s[0]] + s[1..];
    }
  }

  lemma {:induction false} TrimEndCuts(s: string) returns (right: string)
    ensures Blank(right) && s == TrimEnd(s) + right
    ensures TrimEnd(s) == "" || (!IsWhitespace(TrimEnd(s)[|TrimEnd(s)| - 1]) && TrimEnd(s)[0] == s[0])
  {
    right := "";
    if s != "" && IsWhitespace(s[|s| - 1]) {
      var rest := TrimEndCuts(s[..|s| - 1]);
      right := rest + [s[|s| - 1]];
      assert s == s[..|s| - 1] + [s[|s| - 1]];
    }
  }

  lemma TrimCuts(s: string) returns (left: string, right: string)
    ensures Blank(left) && Blank(right) && Trimmed(Trim(s)) && s == left + Trim(s) + right
  {
    left := TrimStartCuts(s);
    right := TrimEndCuts(TrimStart(s));
  }

  lemma {:induction false} TrimStartUndoes(left: string, s: string)
    requires Blank(left) && (s == "" || !IsWhitespace(s[0]))
    ensures TrimStart(left + s) == s
  {
    if left == "" {
      assert left + s == s;
    } else {
      TrimStartUndoes(left[1..], s);
      assert (left + s)[1..] == left[1..] + s;
    }
  }

  lemma {:induction false} TrimEndUndoes(s: string, right: string)
    requires Blank(right) && (s == "" || !IsWhitespace(s[|s| - 1]))
    ensures TrimEnd(s + right) == s
  {
    if right == "" {
      assert s + right == s;
    } else {
      var shorter := right[..|right| - 1];
      TrimEndUndoes(s, shorter);
      assert (s + right)[..|s + right| - 1] == s + shorter;
    }
  }

  lemma TrimUndoes(left: string, s: string, right: string)
    requires Blank(left) && Blank(right) && Trimmed(s) && s != ""
    ensures Trim(left + s + right) == s
  {
    TrimStartUndoes(left, s + right);
    assert left + s + right == left + (s + right);
    TrimEndUndoes(s, right);
  }
}
