/** The Python `str` operations the scripts rely on, on strings of code points. */
module Text {

  /** `c.lower()` for one character; only the ASCII letters A-Z are folded. */
  function LowerChar(c: char): char {
    if 'A' <= c <= 'Z' then (c as int + 32) as char else c
  }

  /** `s.lower()` */
  function Lower(s: string): string {
    seq(|s|, i requires 0 <= i < |s| => LowerChar(s[i]))
  }

  /** `s.startswith(prefix)` */
  predicate StartsWith(s: string, prefix: string) {
    prefix <= s
  }

  /** `sub in s`: some suffix of `s` starts with `sub`. */
  predicate Contains(s: string, sub: string)
    decreases |s|
  {
    StartsWith(s, sub) || (|s| > 0 && Contains(s[1..], sub))
  }

  /** `sub` occurs in `s` starting at index `i`. */
  predicate OccursAt(s: string, sub: string, i: int) {
    0 <= i <= |s| - |sub| && s[i..i + |sub|] == sub
  }

  /** `sub in s` holds exactly when `sub` occurs at some index of `s`. */
  lemma {:induction false} ContainsAt(s: string, sub: string)
    ensures Contains(s, sub) <==> exists i :: OccursAt(s, sub, i)
    decreases |s|
  {
    if |s| > 0 {
      ContainsAt(s[1..], sub);
      if StartsWith(s, sub) {
        assert OccursAt(s, sub, 0);
      } else if Contains(s[1..], sub) {
        var i :| OccursAt(s[1..], sub, i);
        assert s[i + 1..i + 1 + |sub|] == s[1..][i..i + |sub|];
        assert OccursAt(s, sub, i + 1);
      }
      if exists i :: OccursAt(s, sub, i) {
        var i :| OccursAt(s, sub, i);
        if i > 0 {
          assert s[1..][i - 1..i - 1 + |sub|] == s[i..i + |sub|];
          assert OccursAt(s[1..], sub, i - 1);
        } else {
          assert s[..|sub|] == sub;
        }
      }
    } else if sub == [] {
      assert OccursAt(s, sub, 0);
    }
  }

  /**
   * `s.replace(pat, rep)`: every non-overlapping occurrence of `pat`, scanning
   * from the left, is replaced by `rep`; an empty `pat` inserts `rep` before
   * every character and at the end.
   */
  function Replace(s: string, pat: string, rep: string): string
    decreases |s|
  {
    if |pat| == 0 then
      if s == [] then rep else rep + [s[0]] + Replace(s[1..], pat, rep)
    else if StartsWith(s, pat) then rep + Replace(s[|pat|..], pat, rep)
    else if s == [] then []
    else [s[0]] + Replace(s[1..], pat, rep)
  }

  /** Replacing one character by another keeps the length and changes exactly the matching positions. */
  lemma {:induction false} ReplaceChar(s: string, a: char, b: char)
    ensures |Replace(s, [a], [b])| == |s|
    ensures forall i :: 0 <= i < |s| ==> Replace(s, [a], [b])[i] == if s[i] == a then b else s[i]
    decreases |s|
  {
    if s != [] {
      ReplaceChar(s[1..], a, b);
      var r := Replace(s, [a], [b]);
      assert r == [if s[0] == a then b else s[0]] + Replace(s[1..], [a], [b]);
    }
  }

  /**
   * `s.replace('/3', '/2')` keeps the length and changes exactly the `3` of each
   * `/3`: two occurrences of `/3` never overlap, so the scan meets every one.
   */
  lemma {:induction false} ReplaceSlashThree(s: string)
    ensures |Replace(s, "/3", "/2")| == |s|
    ensures forall i :: 0 <= i < |s| ==>
              Replace(s, "/3", "/2")[i] == if 0 < i && s[i - 1] == '/' && s[i] == '3' then '2' else s[i]
    decreases |s|
  {
    var r := Replace(s, "/3", "/2");
    if StartsWith(s, "/3") {
      var t := s[2..];
      ReplaceSlashThree(t);
      assert r == "/2" + Replace(t, "/3", "/2");
      forall i | 2 <= i < |s|
        ensures r[i] == if 0 < i && s[i - 1] == '/' && s[i] == '3' then '2' else s[i]
      {
        assert r[i] == Replace(t, "/3", "/2")[i - 2];
        assert t[i - 2] == s[i];
        if i > 2 { assert t[i - 3] == s[i - 1]; }
      }
    } else if s != [] {
      var t := s[1..];
      ReplaceSlashThree(t);
      assert r == [s[0]] + Replace(t, "/3", "/2");
      forall i | 1 <= i < |s|
        ensures r[i] == if 0 < i && s[i - 1] == '/' && s[i] == '3' then '2' else s[i]
      {
        assert r[i] == Replace(t, "/3", "/2")[i - 1];
        assert t[i - 1] == s[i];
        if i > 1 { assert t[i - 2] == s[i - 1]; }
        if i == 1 { assert s[..2] != "/3"; }
      }
    }
  }

  /** With a non-empty pattern, every character of the result comes from `s` or from `rep`. */
  lemma {:induction false} ReplaceChars(s: string, pat: string, rep: string)
    requires |pat| > 0
    ensures forall c :: c in Replace(s, pat, rep) ==> c in s || c in rep
    decreases |s|
  {
    if StartsWith(s, pat) {
      ReplaceChars(s[|pat|..], pat, rep);
    } else if s != [] {
      ReplaceChars(s[1..], pat, rep);
    }
  }

  /** Replacing a single character by text that lacks it leaves no occurrence of it. */
  lemma {:induction false} ReplaceDropsChar(s: string, pat: string, rep: string)
    requires |pat| == 1 && pat[0] !in rep
    ensures pat[0] !in Replace(s, pat, rep)
    decreases |s|
  {
    if StartsWith(s, pat) {
      ReplaceDropsChar(s[|pat|..], pat, rep);
    } else if s != [] {
      assert s[0] != pat[0];
      ReplaceDropsChar(s[1..], pat, rep);
    }
  }

  /** When `rep` starts like `pat`, `Replace` keeps the first character. */
  lemma ReplaceKeepsHead(s: string, pat: string, rep: string)
    requires |pat| > 0 && |rep| > 0 && rep[0] == pat[0]
    ensures Replace(s, pat, rep) == [] <==> s == []
    ensures s != [] ==> Replace(s, pat, rep)[0] == s[0]
  {
  }

  /** After rewriting every `/3` to `/2`, no `/3` is left. */
  lemma {:induction false} NoVersionThreeLeft(s: string)
    ensures !Contains(Replace(s, "/3", "/2"), "/3")
    decreases |s|
  {
    var r := Replace(s, "/3", "/2");
    if s == [] {
      assert r == [];
    } else if StartsWith(s, "/3") {
      var r' := Replace(s[2..], "/3", "/2");
      NoVersionThreeLeft(s[2..]);
      assert r == "/2" + r';
      assert r[1..] == "2" + r';
      assert r[1..][1..] == r';
    } else {
      var r' := Replace(s[1..], "/3", "/2");
      NoVersionThreeLeft(s[1..]);
      assert r == [s[0]] + r';
      assert r[1..] == r';
      ReplaceKeepsHead(s[1..], "/3", "/2");
      if |s| >= 2 {
        assert s[..2] == [s[0], s[1]] && r[..2] == [s[0], s[1]];
      } else {
        assert r == [s[0]];
      }
      assert !StartsWith(r, "/3");
    }
  }

  /**
   * `s.partition(sep)` for a one-character separator, as the triple
   * (head, separator or "", tail).
   */
  function Partition(s: string, sep: char): (r: (string, string, string))
    ensures r.0 + r.1 + r.2 == s
    ensures sep !in r.0
    ensures r.1 == [sep] || (r.1 == [] && r.2 == [] && sep !in s)
    decreases |s|
  {
    if s == [] then ([], [], [])
    else if s[0] == sep then ([], [sep], s[1..])
    else
      var p := Partition(s[1..], sep);
      ([s[0]] + p.0, p.1, p.2)
  }

  /** The head of a partition ends at the first separator, and the tail starts after it. */
  lemma PartitionAt(s: string, sep: char, i: nat)
    requires i <= |s| && sep !in s[..i] && (i == |s| || s[i] == sep)
    ensures Partition(s, sep).0 == s[..i]
    ensures Partition(s, sep).2 == if i == |s| then [] else s[i + 1..]
  {
    var r := Partition(s, sep);
    if r.1 == [sep] {
      assert s[|r.0|] == sep;
      assert s[..|r.0|] == r.0;
      assert s[|r.0| + 1..] == r.2;
    } else {
      assert s == r.0;
    }
  }

  /** `s.split(sep)` for a one-character separator. */
  function Split(s: string, sep: char): (parts: seq<string>)
    ensures |parts| >= 1
    ensures forall i :: 0 <= i < |parts| ==> sep !in parts[i]
    decreases |s|
  {
    if s == [] then [[]]
    else
      var rest := Split(s[1..], sep);
      if s[0] == sep then [[]] + rest
      else [[s[0]] + rest[0]] + rest[1..]
  }

  /** `sep.join(parts)` */
  function Join(parts: seq<string>, sep: char): string
    decreases |parts|
  {
    if parts == [] then []
    else if |parts| == 1 then parts[0]
    else parts[0] + [sep] + Join(parts[1..], sep)
  }

  /** The first piece of `split` is the head of `partition`. */
  lemma {:induction false} SplitHead(s: string, sep: char)
    ensures Split(s, sep)[0] == Partition(s, sep).0
    decreases |s|
  {
    if s != [] && s[0] != sep {
      SplitHead(s[1..], sep);
    }
  }

  lemma {:induction false} SplitNoSeparator(s: string, sep: char)
    requires sep !in s
    ensures Split(s, sep) == [s]
    decreases |s|
  {
    if s != [] {
      SplitNoSeparator(s[1..], sep);
      assert [s[0]] + s[1..] == s;
    }
  }

  lemma {:induction false} SplitAfterPiece(p: string, sep: char, t: string)
    requires sep !in p
    ensures Split(p + [sep] + t, sep) == [p] + Split(t, sep)
    decreases |p|
  {
    var s := p + [sep] + t;
    if p == [] {
      assert s[1..] == t;
    } else {
      assert s[1..] == p[1..] + [sep] + t;
      SplitAfterPiece(p[1..], sep, t);
      assert [p[0]] + p[1..] == p;
    }
  }

  /** Joining pieces that lack the separator and splitting again gives the pieces back. */
  lemma {:induction false} SplitJoin(parts: seq<string>, sep: char)
    requires |parts| >= 1
    requires forall i :: 0 <= i < |parts| ==> sep !in parts[i]
    ensures Split(Join(parts, sep), sep) == parts
    decreases |parts|
  {
    if |parts| == 1 {
      SplitNoSeparator(parts[0], sep);
    } else {
      SplitJoin(parts[1..], sep);
      SplitAfterPiece(parts[0], sep, Join(parts[1..], sep));
      assert [parts[0]] + parts[1..] == parts;
    }
  }
}
