/** String helpers with the semantics of the JavaScript string methods the engine uses:
    `split` with a string separator, `join`, `startsWith`, ASCII case mapping and
    decimal rendering of integers. */
module Strings {

  /** `s.split(sep)` for a non-empty separator: leftmost, non-overlapping occurrences. */
  function Split(s: string, sep: string): (parts: seq<string>)
    requires |sep| > 0
    ensures |parts| >= 1
    decreases |s|
  {
    if |s| < |sep| then [s]
    else if s[..|sep|] == sep then [""] + Split(s[|sep|..], sep)
    else
      var rest := Split(s[1..], sep);
      [[s[0]] + rest[0]] + rest[1..]
  }

  /** `parts.join(sep)`. */
  function Join(parts: seq<string>, sep: string): string
  {
    if |parts| == 0 then ""
    else if |parts| == 1 then parts[0]
    else parts[0] + sep + Join(parts[1..], sep)
  }

  predicate StartsWith(s: string, prefix: string)
  {
    |prefix| <= |s| && s[..|prefix|] == prefix
  }

  predicate Contains(s: string, c: char)
  {
    exists i | 0 <= i < |s| :: s[i] == c
  }

  /** `parts.filter(p => p.length > 0)`. */
  function NonEmpty(parts: seq<string>): (r: seq<string>)
    ensures forall i | 0 <= i < |r| :: |r[i]| > 0
    ensures forall i | 0 <= i < |r| :: r[i] in parts
    ensures |r| <= |parts|
  {
    if |parts| == 0 then []
    else if |parts[0]| > 0 then [parts[0]] + NonEmpty(parts[1..])
    else NonEmpty(parts[1..])
  }

  lemma {:induction false} NonEmptyAppend(a: seq<string>, b: seq<string>)
    ensures NonEmpty(a + b) == NonEmpty(a) + NonEmpty(b)
  {
    if |a| == 0 {
      assert a + b == b;
    } else {
      assert (a + b)[1..] == a[1..] + b;
      NonEmptyAppend(a[1..], b);
    }
  }

  /** ASCII upper-case letters become lower-case; everything else is unchanged. */
  function LowerChar(c: char): char
  {
    if 'A' <= c <= 'Z' then (c as int + 32) as char else c
  }

  function UpperChar(c: char): char
  {
    if 'a' <= c <= 'z' then (c as int - 32) as char else c
  }

  function Lower(s: string): (r: string)
    ensures |r| == |s|
    ensures forall i {:trigger r[i]} | 0 <= i < |s| :: r[i] == LowerChar(s[i])
  {
    if |s| == 0 then "" else [LowerChar(s[0])] + Lower(s[1..])
  }

  function Upper(s: string): (r: string)
    ensures |r| == |s|
    ensures forall i {:trigger r[i]} | 0 <= i < |s| :: r[i] == UpperChar(s[i])
  {
    if |s| == 0 then "" else [UpperChar(s[0])] + Upper(s[1..])
  }

  function DigitChar(d: nat): (c: char)
    requires d < 10
    ensures '0' <= c <= '9'
  {
    ('0' as int + d) as char
  }

  /** Decimal rendering of a natural number, as `${n}` gives it. */
  function NatToString(n: nat): (r: string)
    ensures |r| >= 1
    ensures forall i | 0 <= i < |r| :: '0' <= r[i] <= '9'
  {
    if n < 10 then [DigitChar(n)] else NatToString(n / 10) + [DigitChar(n % 10)]
  }

  /** Decimal rendering of an integer, with a leading `-` for negatives. */
  function IntToString(n: int): (r: string)
    ensures |r| >= 1
    ensures forall i | 0 <= i < |r| :: '0' <= r[i] <= '9' || r[i] == '-'
  {
    if n < 0 then "-" + NatToString(-n) else NatToString(n)
  }

  // ---------------------------------------------------------------------------------------------
  // Splitting on a single character and joining back

  /** Splitting on one character, unfolded by its first character. */
  lemma SplitCharUnfold(s: string, c: char)
    requires |s| > 0
    ensures Split(s, [c]) ==
      if s[0] == c then [""] + Split(s[1..], [c])
      else [[s[0]] + Split(s[1..], [c])[0]] + Split(s[1..], [c])[1..]
  {
    assert s[..|[c]|] == [s[0]];
    assert s[|[c]|..] == s[1..];
  }

  /** Joining the parts of a split with the same separator gives the input back. */
  lemma {:induction false} JoinSplit(s: string, c: char)
    ensures Join(Split(s, [c]), [c]) == s
  {
    if |s| == 0 {
    } else {
      SplitCharUnfold(s, c);
      var rest := Split(s[1..], [c]);
      JoinSplit(s[1..], c);
      if s[0] == c {
        JoinEmptyFirst(rest, [c]);
      } else {
        JoinConsFirst(s[0], rest, [c]);
      }
      assert s == [s[0]] + s[1..];
    }
  }

  /** No part of a split contains the separator character. */
  lemma {:induction false} SplitPartsFree(s: string, c: char)
    ensures forall i | 0 <= i < |Split(s, [c])| :: !Contains(Split(s, [c])[i], c)
  {
    if |s| > 0 {
      SplitCharUnfold(s, c);
      SplitPartsFree(s[1..], c);
      var rest := Split(s[1..], [c]);
      if s[0] != c {
        var head := [s[0]] + rest[0];
        assert !Contains(rest[0], c);
        forall j | 0 <= j < |head| ensures head[j] != c {
          if j > 0 { assert head[j] == rest[0][j - 1]; }
        }
      }
    }
  }

  /** Joining separator-free parts and splitting again recovers the parts. */
  lemma {:induction false} SplitJoin(parts: seq<string>, c: char)
    requires |parts| >= 1
    requires forall i | 0 <= i < |parts| :: !Contains(parts[i], c)
    ensures Split(Join(parts, [c]), [c]) == parts
  {
    if |parts| == 1 {
      SplitFree(parts[0], c);
    } else {
      SplitJoin(parts[1..], c);
      var tail := Join(parts[1..], [c]);
      SplitPrefix(parts[0], tail, c);
      assert parts == [parts[0]] + parts[1..];
    }
  }

  /** A separator-free string splits into itself. */
  lemma {:induction false} SplitFree(s: string, c: char)
    requires !Contains(s, c)
    ensures Split(s, [c]) == [s]
  {
    if |s| > 0 {
      SplitCharUnfold(s, c);
      assert !Contains(s[1..], c) by {
        forall j | 0 <= j < |s[1..]| ensures s[1..][j] != c { assert s[1..][j] == s[j + 1]; }
      }
      SplitFree(s[1..], c);
      assert s == [s[0]] + s[1..];
    }
  }

  /** A text without the separator's first character is not split at all. */
  lemma {:induction false} SplitNoLead(s: string, sep: string)
    requires |sep| > 0 && !Contains(s, sep[0])
    ensures Split(s, sep) == [s]
    decreases |s|
  {
    if |s| >= |sep| {
      assert s[..|sep|] != sep by { assert s[0] != sep[0]; }
      assert !Contains(s[1..], sep[0]) by {
        forall j | 0 <= j < |s[1..]| ensures s[1..][j] != sep[0] { assert s[1..][j] == s[j + 1]; }
      }
      SplitNoLead(s[1..], sep);
      assert s == [s[0]] + s[1..];
    }
  }

  /** A split on a character has more than one part exactly when the character occurs. */
  lemma SplitCount(s: string, c: char)
    ensures |Split(s, [c])| >= 2 <==> Contains(s, c)
  {
    if !Contains(s, c) {
      SplitFree(s, c);
    } else if |Split(s, [c])| < 2 {
      JoinSplit(s, c);
      SplitPartsFree(s, c);
      assert false;
    }
  }

  /** Splitting a concatenation: the parts of the first text before its last part stay, and its
      last part is continued by the second text. */
  lemma {:induction false} SplitAppend(s: string, t: string, c: char)
    ensures AppendSplits(s, t, c)
    ensures var ps := Split(s, [c]);
            Split(s + t, [c]) == ps[..|ps| - 1] + Split(ps[|ps| - 1] + t, [c])
    decreases |s|
  {
    var ps := Split(s, [c]);
    if |s| == 0 {
      assert s + t == t;
      assert ps == [""];
      assert ps[|ps| - 1] + t == t;
    } else {
      SplitAppend(s[1..], t, c);
      if s[0] == c {
        AppendAfterSeparator(s, t, c);
      } else if |Split(s[1..], [c])| == 1 {
        AppendToOnlyPart(s, t, c);
      } else {
        AppendToFirstPart(s, t, c);
      }
    }
  }

  /** Appending to a text continues its last part. */
  predicate AppendSplits(s: string, t: string, c: char)
  {
    var ps := Split(s, [c]);
    Split(s + t, [c]) == ps[..|ps| - 1] + Split(ps[|ps| - 1] + t, [c])
  }

  /** How a concatenation that starts with a character splits. */
  lemma SplitConsAppend(s: string, t: string, c: char)
    requires |s| > 0
    ensures Split(s + t, [c]) ==
      if s[0] == c then [""] + Split(s[1..] + t, [c])
      else [[s[0]] + Split(s[1..] + t, [c])[0]] + Split(s[1..] + t, [c])[1..]
  {
    SplitCharUnfold(s + t, c);
    assert (s + t)[0] == s[0];
    assert (s + t)[1..] == s[1..] + t;
  }

  lemma AppendAfterSeparator(s: string, t: string, c: char)
    requires |s| > 0 && s[0] == c && AppendSplits(s[1..], t, c)
    ensures AppendSplits(s, t, c)
  {
    SplitCharUnfold(s, c);
    SplitConsAppend(s, t, c);
    var r := Split(s[1..], [c]);
    SnocParts([""], r, Split(s[1..] + t, [c]), Split(r[|r| - 1] + t, [c]));
  }

  lemma AppendToOnlyPart(s: string, t: string, c: char)
    requires |s| > 0 && s[0] != c && |Split(s[1..], [c])| == 1 && AppendSplits(s[1..], t, c)
    ensures AppendSplits(s, t, c)
  {
    var r := Split(s[1..], [c]);
    OnlyPartRest(s[1..], t, c);
    OnlyPartCons(s, c);
    SplitConsAppend(s, t, c);
    ConsSplit(s[0], r[0] + t, c);
    assert [s[0]] + r[0] + t == [s[0]] + (r[0] + t);
  }

  /** A text that splits into one part continues it with whatever is appended. */
  lemma OnlyPartRest(s: string, t: string, c: char)
    requires |Split(s, [c])| == 1 && AppendSplits(s, t, c)
    ensures Split(s + t, [c]) == Split(Split(s, [c])[0] + t, [c])
  {
    var r := Split(s, [c]);
    assert r[..|r| - 1] == [];
  }

  /** Without a separator after a first non-separator character, the text is one part. */
  lemma OnlyPartCons(s: string, c: char)
    requires |s| > 0 && s[0] != c && |Split(s[1..], [c])| == 1
    ensures Split(s, [c]) == [[s[0]] + Split(s[1..], [c])[0]]
  {
    SplitCharUnfold(s, c);
  }

  /** A text that starts with a character other than the separator continues its first part. */
  lemma ConsSplit(x: char, u: string, c: char)
    requires x != c
    ensures Split([x] + u, [c]) == [[x] + Split(u, [c])[0]] + Split(u, [c])[1..]
  {
    SplitCharUnfold([x] + u, c);
    assert ([x] + u)[1..] == u;
  }

  lemma AppendToFirstPart(s: string, t: string, c: char)
    requires |s| > 0 && s[0] != c && |Split(s[1..], [c])| > 1 && AppendSplits(s[1..], t, c)
    ensures AppendSplits(s, t, c)
  {
    SplitCharUnfold(s, c);
    SplitConsAppend(s, t, c);
    var r := Split(s[1..], [c]);
    HeadParts([s[0]], r, Split(s[1..] + t, [c]), Split(r[|r| - 1] + t, [c]));
  }

  /** The sequence algebra of a split that starts with a part of its own. */
  lemma SnocParts(h: seq<string>, r: seq<string>, q: seq<string>, x: seq<string>)
    requires |r| > 0 && q == r[..|r| - 1] + x
    ensures var ps := h + r; h + q == ps[..|ps| - 1] + x && ps[|ps| - 1] == r[|r| - 1]
  {
    var ps := h + r;
    assert ps[..|ps| - 1] == h + r[..|r| - 1];
  }

  /** The sequence algebra of a split whose first part grows by a prefix. */
  lemma HeadParts(p: string, r: seq<string>, q: seq<string>, x: seq<string>)
    requires |r| > 1 && q == r[..|r| - 1] + x
    ensures var ps := [p + r[0]] + r[1..];
            [p + q[0]] + q[1..] == ps[..|ps| - 1] + x && ps[|ps| - 1] == r[|r| - 1]
  {
    var ps := [p + r[0]] + r[1..];
    assert q[0] == r[0];
    assert q[1..] == r[1..|r| - 1] + x;
    assert ps[..|ps| - 1] == [p + r[0]] + r[1..|r| - 1];
  }

  /** A separator-free prefix followed by the separator becomes the first part. */
  lemma {:induction false} SplitPrefix(p: string, tail: string, c: char)
    requires !Contains(p, c)
    ensures Split(p + [c] + tail, [c]) == [p] + Split(tail, [c])
  {
    var s := p + [c] + tail;
    SplitCharUnfold(s, c);
    if |p| == 0 {
      assert s[1..] == tail;
    } else {
      assert !Contains(p[1..], c) by {
        forall j | 0 <= j < |p[1..]| ensures p[1..][j] != c { assert p[1..][j] == p[j + 1]; }
      }
      SplitPrefix(p[1..], tail, c);
      assert s[1..] == p[1..] + [c] + tail;
      assert s[0] == p[0];
      assert p == [p[0]] + p[1..];
    }
  }

  /** Joining two non-empty lists of parts is joining each and putting the separator between. */
  lemma {:induction false} JoinAppend(a: seq<string>, b: seq<string>, sep: string)
    requires |a| >= 1 && |b| >= 1
    ensures Join(a + b, sep) == Join(a, sep) + sep + Join(b, sep)
  {
    if |a| == 1 {
      assert (a + b)[1..] == b;
    } else {
      assert (a + b)[1..] == a[1..] + b;
      JoinAppend(a[1..], b, sep);
    }
  }

  /** Every occurrence of the character c replaced by the text r. */
  function ReplaceChar(s: string, c: char, r: string): (t: string)
    ensures !Contains(s, c) ==> t == s
  {
    if |s| == 0 then ""
    else (if s[0] == c then r else [s[0]]) + ReplaceChar(s[1..], c, r)
  }

  /** A leading empty part contributes only its separator. */
  lemma JoinEmptyFirst(rest: seq<string>, sep: string)
    requires |rest| >= 1
    ensures Join([""] + rest, sep) == sep + Join(rest, sep)
  {
    assert ([""] + rest)[1..] == rest;
  }

  /** A character put in front of the first part is put in front of the joined text. */
  lemma JoinConsFirst(x: char, rest: seq<string>, sep: string)
    requires |rest| >= 1
    ensures Join([[x] + rest[0]] + rest[1..], sep) == [x] + Join(rest, sep)
  {
    var parts := [[x] + rest[0]] + rest[1..];
    if |rest| > 1 {
      assert parts[1..] == rest[1..];
    }
  }

  /** Splitting on a character and joining with another separator replaces the character. */
  lemma {:induction false} JoinSplitReplace(s: string, c: char, sep: string)
    ensures Join(Split(s, [c]), sep) == ReplaceChar(s, c, sep)
  {
    if |s| > 0 {
      SplitCharUnfold(s, c);
      var rest := Split(s[1..], [c]);
      JoinSplitReplace(s[1..], c, sep);
      if s[0] == c {
        JoinEmptyFirst(rest, sep);
      } else {
        JoinConsFirst(s[0], rest, sep);
      }
    }
  }

  // ---------------------------------------------------------------------------------------------
  // Reading decimal text back, and string order

  /** The number a string of decimal digits denotes. */
  function ParseNat(s: string): nat
  {
    if |s| == 0 then 0
    else ParseNat(s[..|s| - 1]) * 10 + (if '0' <= s[|s| - 1] <= '9' then s[|s| - 1] as int - '0' as int else 0)
  }

  /** Decimal text reads back as the number it renders, so distinct numbers render differently. */
  lemma {:induction false} ParseNatToString(n: nat)
    ensures ParseNat(NatToString(n)) == n
    decreases n
  {
    if n >= 10 {
      var s := NatToString(n);
      assert s[..|s| - 1] == NatToString(n / 10);
      ParseNatToString(n / 10);
    }
  }

  /** `a < b` on strings: the first differing character decides, and a proper prefix is smaller. */
  predicate Less(a: string, b: string)
  {
    if |a| == 0 then |b| > 0
    else if |b| == 0 then false
    else a[0] < b[0] || (a[0] == b[0] && Less(a[1..], b[1..]))
  }

  lemma {:induction false} LessIrreflexive(a: string)
    ensures !Less(a, a)
  {
    if |a| > 0 {
      LessIrreflexive(a[1..]);
    }
  }

  lemma {:induction false} LessTransitive(a: string, b: string, c: string)
    requires Less(a, b) && Less(b, c)
    ensures Less(a, c)
  {
    if |a| > 0 && a[0] == b[0] && b[0] == c[0] {
      LessTransitive(a[1..], b[1..], c[1..]);
    }
  }

  lemma {:induction false} LessTotal(a: string, b: string)
    ensures a == b || Less(a, b) || Less(b, a)
  {
    if |a| > 0 && |b| > 0 && a[0] == b[0] {
      LessTotal(a[1..], b[1..]);
      if a[1..] == b[1..] {
        assert a == [a[0]] + a[1..] && b == [b[0]] + b[1..];
      }
    }
  }
}
