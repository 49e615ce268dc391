/** The part of Go's strings package that the rule compiler and the validator rely on.
    A string is a sequence of Unicode characters, which is what Go's range loops visit. */
module GoStrings {
  import opened Basics

  /** unicode.IsSpace. */
  predicate IsSpace(c: char) {
    var n := c as int;
    || 9 <= n <= 13 || n == 32 || n == 0x85 || n == 0xA0 || n == 0x1680
    || 0x2000 <= n <= 0x200A || n == 0x2028 || n == 0x2029 || n == 0x202F || n == 0x205F || n == 0x3000
  }

  function TrimLeft(s: string): string {
    if s != "" && IsSpace(s[0]) then TrimLeft(s[1..]) else s
  }

  function TrimRight(s: string): string {
    if s != "" && IsSpace(s[|s| - 1]) then TrimRight(s[..|s| - 1]) else s
  }

  function TrimSpace(s: string): string {
    TrimRight(TrimLeft(s))
  }

  /** No white space at either end. */
  predicate Trimmed(s: string) {
    s == "" || (!IsSpace(s[0]) && !IsSpace(s[|s| - 1]))
  }

  lemma {:induction false} TrimLeftStart(s: string)
    ensures var t := TrimLeft(s); t == "" || !IsSpace(t[0])
  {
    if s != "" && IsSpace(s[0]) {
      TrimLeftStart(s[1..]);
    }
  }

  lemma {:induction false} TrimRightEnds(s: string)
    ensures var t := TrimRight(s); t <= s && (t == "" || !IsSpace(t[|t| - 1]))
  {
    if s != "" && IsSpace(s[|s| - 1]) {
      TrimRightEnds(s[..|s| - 1]);
    }
  }

  /** Trimming reaches a trimmed string, and changes only strings that are not. */
  lemma TrimSpaceMeaning(s: string)
    ensures Trimmed(TrimSpace(s))
    ensures TrimSpace(s) == s <==> Trimmed(s)
  {
    TrimLeftStart(s);
    TrimRightEnds(TrimLeft(s));
  }

  lemma {:induction false} TrimLeftParts(s: string) returns (front: string)
    ensures s == front + TrimLeft(s) && forall c | c in front :: IsSpace(c)
  {
    if s != "" && IsSpace(s[0]) {
      var rest := TrimLeftParts(s[1..]);
      front := [s[0]] + rest;
      assert s == [s[0]] + s[1..];
    } else {
      front := "";
    }
  }

  lemma {:induction false} TrimRightParts(s: string) returns (back: string)
    ensures s == TrimRight(s) + back && forall c | c in back :: IsSpace(c)
  {
    if s != "" && IsSpace(s[|s| - 1]) {
      var front := s[..|s| - 1];
      var rest := TrimRightParts(front);
      back := rest + [s[|s| - 1]];
      assert s == front + [s[|s| - 1]];
    } else {
      back := "";
    }
  }

  /** Trimming takes away nothing but white space, at the two ends. */
  lemma TrimSpaceParts(s: string) returns (front: string, back: string)
    ensures s == front + TrimSpace(s) + back
    ensures forall c | c in front + back :: IsSpace(c)
  {
    front := TrimLeftParts(s);
    back := TrimRightParts(TrimLeft(s));
    hide TrimLeft, TrimRight;
  }

  function Split(s: string, sep: char): (parts: seq<string>)
    ensures parts != []
  {
    if s == "" then [""]
    else
      var rest := Split(s[1..], sep);
      if s[0] == sep then [""] + rest else [[s[0]] + rest[0]] + rest[1..]
  }

  function Join(parts: seq<string>, sep: char): string {
    if parts == [] then ""
    else if |parts| == 1 then parts[0]
    else parts[0] + [sep] + Join(parts[1..], sep)
  }

  lemma {:induction false} SplitParts(s: string, sep: char)
    ensures forall p | p in Split(s, sep) :: sep !in p
  {
    if s != "" {
      SplitParts(s[1..], sep);
    }
  }

  lemma {:induction false} JoinSplit(s: string, sep: char)
    ensures Join(Split(s, sep), sep) == s
  {
    if s != "" {
      JoinSplit(s[1..], sep);
      var rest := Split(s[1..], sep);
      if s[0] == sep {
        assert ([""] + rest)[1..] == rest;
      } else {
        assert ([[s[0]] + rest[0]] + rest[1..])[1..] == rest[1..];
      }
    }
  }

  lemma {:induction false} SplitWithout(s: string, sep: char)
    requires sep !in s
    ensures Split(s, sep) == [s]
  {
    if s != "" {
      SplitWithout(s[1..], sep);
      assert s == [s[0]] + s[1..];
    }
  }

  lemma {:induction false} SplitFirst(p: string, rest: string, sep: char)
    requires sep !in p
    ensures Split(p + [sep] + rest, sep) == [p] + Split(rest, sep)
  {
    var s := p + [sep] + rest;
    if p == "" {
      assert s[1..] == rest;
    } else {
      SplitFirst(p[1..], rest, sep);
      assert s[1..] == p[1..] + [sep] + rest;
      assert p == [p[0]] + p[1..];
    }
  }

  lemma {:induction false} JoinConcat(a: seq<string>, b: seq<string>, sep: char)
    requires a != [] && b != []
    ensures Join(a + b, sep) == Join(a, sep) + [sep] + Join(b, sep)
  {
    assert (a + b)[1..] == a[1..] + b;
    if |a| > 1 {
      JoinConcat(a[1..], b, sep);
    }
  }

  lemma {:induction false} SplitJoin(parts: seq<string>, sep: char)
    requires parts != [] && forall p | p in parts :: sep !in p
    ensures Split(Join(parts, sep), sep) == parts
  {
    if |parts| == 1 {
      SplitWithout(parts[0], sep);
    } else {
      SplitJoin(parts[1..], sep);
      SplitFirst(parts[0], Join(parts[1..], sep), sep);
    }
  }

  lemma SplitConcat(a: string, b: string, sep: char)
    ensures Split(a + [sep] + b, sep) == Split(a, sep) + Split(b, sep)
  {
    hide Split, Join;
    SplitParts(a, sep);
    SplitParts(b, sep);
    JoinSplit(a, sep);
    JoinSplit(b, sep);
    JoinConcat(Split(a, sep), Split(b, sep), sep);
    SplitJoin(Split(a, sep) + Split(b, sep), sep);
  }

  /** strings.SplitN(s, "..", 2): what stands before and after the first two dots, if there are two dots. */
  function CutDots(s: string): Option<(string, string)> {
    if |s| < 2 then None
    else if s[..2] == ".." then Some(("", s[2..]))
    else
      match CutDots(s[1..])
      case None => None
      case Some((before, after)) => Some(([s[0]] + before, after))
  }

  predicate DotsAt(s: string, i: int) {
    0 <= i && i + 2 <= |s| && s[i] == '.' && s[i + 1] == '.'
  }

  /** The cut is at the first two dots, and there is none only if there are no two dots. */
  lemma {:induction false} CutDotsMeaning(s: string)
    ensures match CutDots(s)
            case None => forall i :: !DotsAt(s, i)
            case Some((a, b)) => s == a + ".." + b && forall i | i < |a| :: !DotsAt(s, i)
  {
    if |s| >= 2 && s[..2] == ".." {
      assert s == "" + ".." + s[2..];
    } else if |s| >= 2 {
      CutDotsMeaning(s[1..]);
      assert !DotsAt(s, 0) by {
        assert s[..2] == [s[0], s[1]];
      }
      forall i | DotsAt(s, i) ensures i > 0 && DotsAt(s[1..], i - 1) {
      }
      assert s == [s[0]] + s[1..];
    }
  }

  lemma {:induction false} CutDotsFirst(a: string, b: string)
    requires '.' !in a
    ensures CutDots(a + ".." + b) == Some((a, b))
  {
    var s := a + ".." + b;
    if a == "" {
      assert s[..2] == ".." && s[2..] == b;
    } else {
      CutDotsFirst(a[1..], b);
      assert s[1..] == a[1..] + ".." + b && s[0] == a[0];
      assert a == [a[0]] + a[1..] && s[..2][0] == a[0];
    }
  }
}
