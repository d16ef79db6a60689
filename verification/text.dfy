/**
 Python string operations the client relies on, on `string` = `seq<char>`:
 whitespace stripping (`str.strip`), replacement (`str.replace`), joining
 (`sep.join`), splitting on one character (`str.split`), prefix tests and
 slicing with Python's clamping rules.
 */
module Text {

  /** Python's `str.isspace` for one character: exactly the characters that a
      bare `str.strip()` removes. */
  predicate IsSpace(c: char) {
    || ('\t' <= c <= '\r')
    || ('\U{1C}' <= c <= '\U{1F}')
    || c == ' '
    || c == '\U{85}'
    || c == '\U{A0}'
    || c == '\U{1680}'
    || ('\U{2000}' <= c <= '\U{200A}')
    || c == '\U{2028}'
    || c == '\U{2029}'
    || c == '\U{202F}'
    || c == '\U{205F}'
    || c == '\U{3000}'
  }

  /** Neither end of `s` is whitespace, i.e. `s.strip() == s`. */
  predicate Trimmed(s: string) {
    |s| == 0 || (!IsSpace(s[0]) && !IsSpace(s[|s| - 1]))
  }

  /** The number of whitespace characters `s` starts with. */
  function LeadingSpaces(s: string): (n: nat)
    ensures n <= |s|
    ensures forall k :: 0 <= k < n ==> IsSpace(s[k])
    ensures n == |s| || !IsSpace(s[n])
  {
    if |s| > 0 && IsSpace(s[0]) then
      var m := LeadingSpaces(s[1..]);
      assert forall k :: 1 <= k < m + 1 ==> s[k] == s[1..][k - 1];
      m + 1
    else 0
  }

  /** `s.lstrip()`: the suffix left after dropping the leading whitespace. */
  function LStrip(s: string): (r: string)
    ensures |r| <= |s| && r == s[|s| - |r|..]
    ensures forall k :: 0 <= k < |s| - |r| ==> IsSpace(s[k])
    ensures |r| == 0 || !IsSpace(r[0])
  {
    s[LeadingSpaces(s)..]
  }

  /** `s.rstrip()`: the prefix left after dropping the trailing whitespace. */
  function RStrip(s: string): (r: string)
    ensures |r| <= |s| && r == s[..|r|]
    ensures forall k :: |r| <= k < |s| ==> IsSpace(s[k])
    ensures |r| == 0 || !IsSpace(r[|r| - 1])
  {
    if |s| > 0 && IsSpace(s[|s| - 1]) then RStrip(s[..|s| - 1]) else s
  }

  /** `s.strip()`. */
  function Strip(s: string): (r: string)
    ensures Trimmed(r)
    ensures |r| <= |s|
    ensures Trimmed(s) ==> r == s
    ensures r == "" <==> forall k :: 0 <= k < |s| ==> IsSpace(s[k])
    ensures forall x :: x in r ==> x in s
  {
    var l := LStrip(s);
    StripBounds(s, l, RStrip(l));
    RStrip(l)
  }

  /** What `Strip` removes is whitespace, so nothing is left only of blank input. */
  lemma StripBounds(s: string, l: string, r: string)
    requires l == LStrip(s) && r == RStrip(l)
    ensures Trimmed(r)
    ensures r == "" <==> forall k :: 0 <= k < |s| ==> IsSpace(s[k])
  {
    assert |r| > 0 ==> r[0] == l[0];
    if r == "" {
      assert l == "";
    }
  }

  /** Stripping a string that starts with whitespace is stripping the rest of it. */
  lemma StripLeadingSpace(c: char, s: string)
    requires IsSpace(c)
    ensures Strip([c] + s) == Strip(s)
  {
    assert ([c] + s)[1..] == s;
  }

  /** Python's `s.partition(c)` without the separator: the text before the first
      `c` and the text after it, or `s` and "" when `c` does not occur. */
  function SplitFirst(s: string, c: char): (r: (string, string))
    ensures c !in r.0
    ensures c in s ==> s == r.0 + [c] + r.1
    ensures c !in s ==> r == (s, "")
  {
    if |s| == 0 then ("", "")
    else if s[0] == c then ("", s[1..])
    else
      var t := SplitFirst(s[1..], c);
      assert s == [s[0]] + s[1..];
      ([s[0]] + t.0, t.1)
  }

  /** The first separator of `a + [c] + b` is the one after `a` when `a` has none. */
  lemma {:induction false} SplitFirstAt(a: string, c: char, b: string)
    requires c !in a
    ensures SplitFirst(a + [c] + b, c) == (a, b)
    decreases |a|
  {
    var s := a + [c] + b;
    if |a| > 0 {
      assert a[0] in a;
      assert forall x :: x in a[1..] ==> x in a;
      assert s[1..] == a[1..] + [c] + b;
      SplitFirstAt(a[1..], c, b);
      assert a == [a[0]] + a[1..];
    } else {
      assert s[1..] == b;
    }
  }

  /** Python's `s.startswith(p)`. */
  predicate StartsWith(s: string, p: string) {
    |p| <= |s| && s[..|p|] == p
  }

  /** `pat` does not occur anywhere in `s`. */
  predicate NoOccurrence(s: string, pat: string) {
    forall i :: 0 <= i <= |s| ==> !StartsWith(s[i..], pat)
  }

  /** Python's `s.replace(pat, rep)` for a non-empty pattern: occurrences are
      found scanning left to right and never overlap; the text produced by a
      replacement is not scanned again. */
  function ReplaceAll(s: string, pat: string, rep: string): (r: string)
    requires |pat| > 0
    ensures rep == "" ==> |r| <= |s|
    decreases |s|
  {
    if |s| == 0 then ""
    else if StartsWith(s, pat) then rep + ReplaceAll(s[|pat|..], pat, rep)
    else [s[0]] + ReplaceAll(s[1..], pat, rep)
  }

  /** Replacing a pattern that does not occur leaves the string unchanged. */
  lemma {:induction false} ReplaceAbsent(s: string, pat: string, rep: string)
    requires |pat| > 0 && NoOccurrence(s, pat)
    ensures ReplaceAll(s, pat, rep) == s
    decreases |s|
  {
    if |s| > 0 {
      assert s[0..] == s;
      assert !StartsWith(s, pat);
      assert NoOccurrence(s[1..], pat) by {
        forall i | 0 <= i <= |s[1..]| ensures !StartsWith(s[1..][i..], pat) {
          assert s[1..][i..] == s[i + 1..];
        }
      }
      ReplaceAbsent(s[1..], pat, rep);
    }
  }

  /** Removing every copy of one character keeps exactly the other characters. */
  lemma {:induction false} RemoveCharMembers(s: string, c: char)
    ensures forall x :: x in ReplaceAll(s, [c], "") <==> x in s && x != c
    decreases |s|
  {
    if |s| > 0 {
      RemoveCharMembers(s[1..], c);
      assert s == [s[0]] + s[1..];
      if StartsWith(s, [c]) {
        assert s[0] == c;
      } else {
        assert s[0] != c;
      }
    }
  }

  /** Removing a character that does not occur changes nothing. */
  lemma {:induction false} RemoveAbsentChar(s: string, c: char)
    requires c !in s
    ensures ReplaceAll(s, [c], "") == s
    decreases |s|
  {
    if |s| > 0 {
      assert s[0] in s && s[0] != c;
      assert forall x :: x in s[1..] ==> x in s;
      RemoveAbsentChar(s[1..], c);
      assert s == [s[0]] + s[1..];
    }
  }

  /** Removing one character distributes over any concatenation. */
  lemma {:induction false} RemoveCharConcat(a: string, b: string, c: char)
    ensures ReplaceAll(a + b, [c], "") == ReplaceAll(a, [c], "") + ReplaceAll(b, [c], "")
    decreases |a|
  {
    if |a| == 0 {
      assert a + b == b;
    } else {
      assert (a + b)[1..] == a[1..] + b;
      assert (a + b)[0] == a[0];
      RemoveCharConcat(a[1..], b, c);
    }
  }

  /** Replacement distributes over a concatenation whose second half starts
      with a character that cannot be part of an occurrence. */
  lemma {:induction false} ReplaceConcat(a: string, b: string, pat: string, rep: string)
    requires |pat| > 0
    requires |b| == 0 || b[0] !in pat
    ensures ReplaceAll(a + b, pat, rep) == ReplaceAll(a, pat, rep) + ReplaceAll(b, pat, rep)
    decreases |a|
  {
    if |a| == 0 {
      assert a + b == b;
    } else {
      var s := a + b;
      if StartsWith(s, pat) {
        PatternWithin(a, b, pat);
        assert a[..|pat|] == s[..|pat|];
        assert s[|pat|..] == a[|pat|..] + b;
        ReplaceConcat(a[|pat|..], b, pat, rep);
      } else {
        assert !StartsWith(a, pat);
        assert s[1..] == a[1..] + b;
        ReplaceConcat(a[1..], b, pat, rep);
      }
    }
  }

  /** An occurrence at the start of `a + b` lies inside `a` when `b` starts
      with a character foreign to the pattern. */
  lemma PatternWithin(a: string, b: string, pat: string)
    requires StartsWith(a + b, pat)
    requires |b| == 0 || b[0] !in pat
    ensures |pat| <= |a|
  {
    if |pat| > |a| {
      StraddleWitness(a, b, pat);
      assert false;
    }
  }

  /** An occurrence that runs past the end of `a` contains the first character of `b`. */
  lemma StraddleWitness(a: string, b: string, pat: string)
    requires StartsWith(a + b, pat) && |pat| > |a|
    ensures |b| > 0 && b[0] in pat
  {
    assert pat[|a|] == (a + b)[|a|];
  }

  /** Python's `sep.join(parts)`. */
  function Join(parts: seq<string>, sep: string): string {
    if |parts| == 0 then ""
    else if |parts| == 1 then parts[0]
    else parts[0] + sep + Join(parts[1..], sep)
  }

  /** Python's `s.split(c)` for a one-character separator: always at least one
      piece, no piece contains the separator, and joining the pieces back with
      the separator gives `s`. */
  function Split(s: string, c: char): (r: seq<string>)
    ensures |r| >= 1
    ensures forall i :: 0 <= i < |r| ==> c !in r[i]
    ensures Join(r, [c]) == s
  {
    if |s| == 0 then [""]
    else
      var rest := Split(s[1..], c);
      assert s == [s[0]] + s[1..];
      if s[0] == c then
        assert Join([""] + rest, [c]) == "" + [c] + Join(rest, [c]);
        [""] + rest
      else
        JoinExtendFirst(s[0], rest, [c]);
        [[s[0]] + rest[0]] + rest[1..]
  }

  /** Extending the first piece of a join extends the joined string. */
  lemma JoinExtendFirst(ch: char, parts: seq<string>, sep: string)
    requires |parts| >= 1
    ensures Join([[ch] + parts[0]] + parts[1..], sep) == [ch] + Join(parts, sep)
  {
    var r := [[ch] + parts[0]] + parts[1..];
    assert r[1..] == parts[1..];
  }

  /** Splitting a piece that contains no separator gives the piece alone. */
  lemma {:induction false} SplitNoSeparator(a: string, c: char)
    requires c !in a
    ensures Split(a, c) == [a]
    decreases |a|
  {
    if |a| > 0 {
      assert a[0] in a;
      assert forall x :: x in a[1..] ==> x in a;
      SplitNoSeparator(a[1..], c);
      assert a == [a[0]] + a[1..];
    }
  }

  /** The first separator ends the first piece. */
  lemma {:induction false} SplitAtFirst(a: string, c: char, b: string)
    requires c !in a
    ensures Split(a + [c] + b, c) == [a] + Split(b, c)
    decreases |a|
  {
    var s := a + [c] + b;
    if |a| == 0 {
      assert s[1..] == b;
    } else {
      assert a[0] in a;
      assert forall x :: x in a[1..] ==> x in a;
      assert s[1..] == a[1..] + [c] + b;
      SplitAtFirst(a[1..], c, b);
      assert a == [a[0]] + a[1..];
    }
  }

  /** Splitting a join recovers the pieces, provided none contains the separator. */
  lemma {:induction false} SplitJoin(parts: seq<string>, c: char)
    requires |parts| >= 1
    requires forall i :: 0 <= i < |parts| ==> c !in parts[i]
    ensures Split(Join(parts, [c]), c) == parts
    decreases |parts|
  {
    if |parts| == 1 {
      SplitNoSeparator(parts[0], c);
    } else {
      SplitAtFirst(parts[0], c, Join(parts[1..], [c]));
      SplitJoin(parts[1..], c);
      assert parts == [parts[0]] + parts[1..];
    }
  }

  /** Replacing a pattern that occurs in none of the pieces, and cannot straddle
      the separator, leaves their join unchanged. */
  lemma {:induction false} ReplaceAbsentInJoin(parts: seq<string>, c: char, pat: string, rep: string)
    requires |pat| > 0 && c !in pat
    requires forall i :: 0 <= i < |parts| ==> NoOccurrence(parts[i], pat)
    ensures ReplaceAll(Join(parts, [c]), pat, rep) == Join(parts, [c])
    decreases |parts|
  {
    if |parts| == 1 {
      ReplaceAbsent(parts[0], pat, rep);
    } else if |parts| > 1 {
      var rest := Join(parts[1..], [c]);
      ReplaceAbsentInJoin(parts[1..], c, pat, rep);
      ReplaceAbsent(parts[0], pat, rep);
      assert parts[0] + [c] + rest == parts[0] + ([c] + rest);
      ReplaceConcat(parts[0], [c] + rest, pat, rep);
      assert pat[0] in pat;
      assert !StartsWith([c] + rest, pat) by {
        assert ([c] + rest)[0] == c;
      }
      assert ([c] + rest)[1..] == rest;
    }
  }

  /** The join of non-empty pieces that are each trimmed is trimmed. */
  lemma {:induction false} JoinTrimmed(parts: seq<string>, sep: string)
    requires forall i :: 0 <= i < |parts| ==> parts[i] != "" && Trimmed(parts[i])
    ensures Trimmed(Join(parts, sep))
    ensures |parts| > 0 ==> Join(parts, sep) != "" && Join(parts, sep)[0] == parts[0][0]
    ensures |parts| > 0 ==> Join(parts, sep)[|Join(parts, sep)| - 1] == parts[|parts| - 1][|parts[|parts| - 1]| - 1]
    decreases |parts|
  {
    if |parts| > 1 {
      JoinTrimmed(parts[1..], sep);
    }
  }

  /** The pieces laid end to end, `"".join(parts)`. */
  function Concat(parts: seq<string>): string {
    if |parts| == 0 then "" else parts[0] + Concat(parts[1..])
  }

  /** Removing a one-character separator from a join of pieces that do not
      contain it leaves the pieces laid end to end. */
  lemma {:induction false} RemoveSeparator(parts: seq<string>, c: char)
    requires forall i :: 0 <= i < |parts| ==> c !in parts[i]
    ensures ReplaceAll(Join(parts, [c]), [c], "") == Concat(parts)
    decreases |parts|
  {
    if |parts| == 1 {
      RemoveAbsentChar(parts[0], c);
      assert Concat(parts[1..]) == "";
    } else if |parts| > 1 {
      var rest := Join(parts[1..], [c]);
      RemoveSeparator(parts[1..], c);
      RemoveAbsentChar(parts[0], c);
      RemoveCharConcat(parts[0] + [c], rest, c);
      RemoveCharConcat(parts[0], [c], c);
      assert [c][1..] == "";
      assert ReplaceAll([c], [c], "") == "" by {
        assert StartsWith([c], [c]);
      }
    }
  }

  /** A join of five pieces written out. */
  lemma {:induction false} Join5(a: string, b: string, c: string, d: string, e: string, sep: string)
    ensures Join([a, b, c, d, e], sep) == a + sep + (b + sep + (c + sep + (d + sep + e)))
  {
    var p := [a, b, c, d, e];
    assert p[1..] == [b, c, d, e];
    assert p[2..] == [c, d, e];
    assert p[3..] == [d, e];
    assert p[4..] == [e];
    assert Join([e], sep) == e;
    assert Join([d, e], sep) == d + sep + Join([e], sep);
    assert Join([c, d, e], sep) == c + sep + Join([d, e], sep);
    assert Join([b, c, d, e], sep) == b + sep + Join([c, d, e], sep);
  }

  /** A join of four pieces written out. */
  lemma {:induction false} Join4(a: string, b: string, c: string, d: string, sep: string)
    ensures Join([a, b, c, d], sep) == a + sep + (b + sep + (c + sep + d))
  {
    var p := [a, b, c, d];
    assert p[1..] == [b, c, d];
    assert p[2..] == [c, d];
    assert p[3..] == [d];
    assert Join([d], sep) == d;
    assert Join([c, d], sep) == c + sep + Join([d], sep);
    assert Join([b, c, d], sep) == b + sep + Join([c, d], sep);
  }

  /** A join of six pieces written out. */
  lemma {:induction false} Join6(a: string, b: string, c: string, d: string, e: string, f: string, sep: string)
    ensures Join([a, b, c, d, e, f], sep) == a + sep + (b + sep + (c + sep + (d + sep + (e + sep + f))))
  {
    var p := [a, b, c, d, e, f];
    assert p[1..] == [b, c, d, e, f];
    Join5(b, c, d, e, f, sep);
  }

  /** A piece that itself contains the separator can be cut in two without
      changing the join. */
  lemma {:induction false} JoinSplitPart(pre: seq<string>, a: string, b: string, post: seq<string>, sep: string)
    ensures Join(pre + [a + sep + b] + post, sep) == Join(pre + [a, b] + post, sep)
    decreases |pre|
  {
    if |pre| == 0 {
      assert pre + [a + sep + b] + post == [a + sep + b] + post;
      assert pre + [a, b] + post == [a, b] + post;
      assert ([a, b] + post)[1..] == [b] + post;
      if |post| == 0 {
        assert [b] + post == [b];
      } else {
        assert ([a + sep + b] + post)[1..] == post;
        assert ([b] + post)[1..] == post;
      }
    } else {
      JoinSplitPart(pre[1..], a, b, post, sep);
      assert (pre + [a + sep + b] + post)[1..] == pre[1..] + [a + sep + b] + post;
      assert (pre + [a, b] + post)[1..] == pre[1..] + [a, b] + post;
    }
  }

  /** A character found in no piece and not in the separator is not in the join. */
  lemma {:induction false} JoinAvoids(parts: seq<string>, sep: string, c: char)
    requires c !in sep
    requires forall i :: 0 <= i < |parts| ==> c !in parts[i]
    ensures c !in Join(parts, sep)
    decreases |parts|
  {
    if |parts| > 1 {
      JoinAvoids(parts[1..], sep, c);
    }
  }

  /** Python's `s[0:n]` for `n >= 0`: the slice is clamped to the string. */
  function Prefix(s: string, n: nat): (r: string)
    ensures |r| == if n < |s| then n else |s|
    ensures StartsWith(s, r)
  {
    if n < |s| then s[..n] else s
  }

  /** Python's `s[-n:]`: the last `n` characters, or the whole string when it is
      shorter; `s[-0:]` is the whole string as well. */
  function LastN(s: string, n: nat): (r: string)
    ensures n > 0 ==> |r| == if n < |s| then n else |s|
    ensures |r| <= |s| && r == s[|s| - |r|..]
  {
    if n == 0 || |s| <= n then s else s[|s| - n..]
  }

  /** ASCII-only lowercasing; for the literals compared against ("gzip", "br")
      it agrees with Python's `str.lower`, since no other character lowercases
      to one of their letters alone. */
  function AsciiLower(s: string): (r: string)
    ensures |r| == |s|
    ensures forall i :: 0 <= i < |s| ==> r[i] == if 'A' <= s[i] <= 'Z' then (s[i] as int + 32) as char else s[i]
  {
    if |s| == 0 then ""
    else [if 'A' <= s[0] <= 'Z' then (s[0] as int + 32) as char else s[0]] + AsciiLower(s[1..])
  }
}
