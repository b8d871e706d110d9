/**
 * The parts of Go's `strings` and `unicode` packages that the generator uses:
 * `strings.Split` on a one-character separator, `strings.TrimSpace`,
 * `strings.Trim` with a one-character cutset, and an ASCII `unicode.IsLower`.
 */
module Strings {

  /** Number of occurrences of `c` in `s`. */
  function Count(s: string, c: char): nat
  {
    if |s| == 0 then 0 else (if s[0] == c then 1 else 0) + Count(s[1..], c)
  }

  /**
   * `strings.Split(s, string(sep))`: the pieces between the separators, in
   * order. The empty string gives one empty piece.
   */
  function Split(s: string, sep: char): (parts: seq<string>)
    ensures |parts| >= 1
    decreases |s|
  {
    if |s| == 0 then [""]
    else if s[0] == sep then [""] + Split(s[1..], sep)
    else
      var rest := Split(s[1..], sep);
      [[s[0]] + rest[0]] + rest[1..]
  }

  /** `strings.Join(parts, string(sep))`. */
  function JoinWith(parts: seq<string>, sep: char): string
  {
    if |parts| == 0 then ""
    else if |parts| == 1 then parts[0]
    else parts[0] + [sep] + JoinWith(parts[1..], sep)
  }

  /** No piece holds the separator. */
  lemma {:induction false} SplitPiecesLack(s: string, sep: char)
    ensures forall k :: 0 <= k < |Split(s, sep)| ==> sep !in Split(s, sep)[k]
    decreases |s|
  {
    if |s| > 0 {
      SplitPiecesLack(s[1..], sep);
      if s[0] != sep {
        var rest := Split(s[1..], sep);
        assert sep !in [s[0]] + rest[0];
      }
    }
  }

  /** Split yields one more piece than there are separators. */
  lemma {:induction false} SplitLength(s: string, sep: char)
    ensures |Split(s, sep)| == Count(s, sep) + 1
    decreases |s|
  {
    if |s| > 0 {
      SplitLength(s[1..], sep);
    }
  }

  /** Joining the pieces again gives back the original string. */
  lemma {:induction false} JoinSplit(s: string, sep: char)
    ensures JoinWith(Split(s, sep), sep) == s
    decreases |s|
  {
    if |s| > 0 {
      JoinSplit(s[1..], sep);
      var rest := Split(s[1..], sep);
      if s[0] == sep {
        assert s == [sep] + s[1..];
      } else {
        var parts := Split(s, sep);
        assert parts[1..] == rest[1..];
        if |rest| == 1 {
          assert s == [s[0]] + rest[0];
        } else {
          assert JoinWith(rest, sep) == rest[0] + [sep] + JoinWith(rest[1..], sep);
          assert s == [s[0]] + s[1..];
        }
      }
    }
  }

  /** A string without the separator is a single piece. */
  lemma {:induction false} SplitNoSep(s: string, sep: char)
    requires sep !in s
    ensures Split(s, sep) == [s]
    decreases |s|
  {
    if |s| > 0 {
      assert sep !in s[1..] by {
        forall k | 0 <= k < |s[1..]| ensures s[1..][k] != sep { assert s[1..][k] == s[k + 1]; }
      }
      SplitNoSep(s[1..], sep);
      assert [s[0]] + s[1..] == s;
    }
  }

  /** Splitting distributes over a separator: the pieces of `a`, then those of `b`. */
  lemma {:induction false} SplitAppend(a: string, b: string, sep: char)
    ensures Split(a + [sep] + b, sep) == Split(a, sep) + Split(b, sep)
    decreases |a|
  {
    if |a| == 0 {
      assert a + [sep] + b == [sep] + b;
      SplitCons(sep, b, sep);
    } else {
      var t := a[1..];
      assert a == [a[0]] + t;
      assert a + [sep] + b == [a[0]] + (t + [sep] + b);
      SplitAppend(t, b, sep);
      SplitCons(a[0], t + [sep] + b, sep);
      SplitCons(a[0], t, sep);
      if a[0] != sep {
        GlueHead([a[0]], Split(t, sep), Split(b, sep));
      }
    }
  }

  /** Gluing `h` onto the first piece commutes with appending more pieces. */
  lemma GlueHead(h: string, xs: seq<string>, ys: seq<string>)
    requires |xs| >= 1
    ensures [h + (xs + ys)[0]] + (xs + ys)[1..] == [h + xs[0]] + xs[1..] + ys
  {
    assert (xs + ys)[0] == xs[0];
    assert (xs + ys)[1..] == xs[1..] + ys;
  }

  /** Splitting a string that starts with `c`: one step of the definition. */
  lemma SplitCons(c: char, t: string, sep: char)
    ensures Split([c] + t, sep)
         == if c == sep then [""] + Split(t, sep)
            else [[c] + Split(t, sep)[0]] + Split(t, sep)[1..]
  {
    assert ([c] + t)[0] == c;
    assert ([c] + t)[1..] == t;
  }

  /** Joining two non-empty lists of pieces puts one separator between them. */
  lemma {:induction false} JoinAppend(xs: seq<string>, ys: seq<string>, sep: char)
    requires |xs| >= 1 && |ys| >= 1
    ensures JoinWith(xs + ys, sep) == JoinWith(xs, sep) + [sep] + JoinWith(ys, sep)
    decreases |xs|
  {
    if |xs| > 1 {
      assert (xs + ys)[1..] == xs[1..] + ys;
      JoinAppend(xs[1..], ys, sep);
    } else {
      assert (xs + ys)[1..] == ys;
    }
  }

  /** Splitting a join gives back the pieces, when no piece holds the separator. */
  lemma {:induction false} SplitJoin(parts: seq<string>, sep: char)
    requires |parts| >= 1
    requires forall k :: 0 <= k < |parts| ==> sep !in parts[k]
    ensures Split(JoinWith(parts, sep), sep) == parts
    decreases |parts|
  {
    if |parts| == 1 {
      SplitNoSep(parts[0], sep);
    } else {
      SplitJoin(parts[1..], sep);
      SplitAppend(parts[0], JoinWith(parts[1..], sep), sep);
      SplitNoSep(parts[0], sep);
      assert parts == [parts[0]] + parts[1..];
    }
  }

  /** Go's `unicode.IsSpace`: the Latin-1 spaces plus the Unicode White_Space set. */
  predicate IsGoSpace(c: char)
  {
    var n := c as int;
    n == 0x09 || n == 0x0A || n == 0x0B || n == 0x0C || n == 0x0D || n == 0x20
    || n == 0x85 || n == 0xA0 || n == 0x1680 || (0x2000 <= n <= 0x200A)
    || n == 0x2028 || n == 0x2029 || n == 0x202F || n == 0x205F || n == 0x3000
  }

  /** The characters a trim removes: Go white space, or the one cutset character `/`. */
  datatype Cutset = Space | Char(c: char)

  predicate InCutset(cut: Cutset, c: char)
  {
    match cut
    case Space => IsGoSpace(c)
    case Char(d) => c == d
  }

  /** Removes the longest prefix of cutset characters. */
  function TrimLeft(s: string, cut: Cutset): (r: string)
    ensures |r| <= |s|
    ensures |r| > 0 ==> !InCutset(cut, r[0])
    decreases |s|
  {
    if |s| > 0 && InCutset(cut, s[0]) then TrimLeft(s[1..], cut) else s
  }

  /** Removes the longest suffix of cutset characters. */
  function TrimRight(s: string, cut: Cutset): (r: string)
    ensures |r| <= |s|
    ensures |r| > 0 ==> !InCutset(cut, r[|r| - 1])
    decreases |s|
  {
    if |s| > 0 && InCutset(cut, s[|s| - 1]) then TrimRight(s[..|s| - 1], cut) else s
  }

  /** Removes both the longest prefix and the longest suffix of cutset characters. */
  function Trim(s: string, cut: Cutset): (r: string)
    ensures |r| > 0 ==> !InCutset(cut, r[0]) && !InCutset(cut, r[|r| - 1])
    ensures |r| <= |s|
  {
    TrimRightPrefix(TrimLeft(s, cut), cut);
    TrimRight(TrimLeft(s, cut), cut)
  }

  /** A slice holds no character that the whole string lacks. */
  lemma SliceLacks(s: string, i: nat, j: nat, c: char)
    requires i <= j <= |s| && c !in s
    ensures c !in s[i..j]
  {
    forall k | 0 <= k < j - i ensures s[i..j][k] != c {
      assert s[i..j][k] == s[i + k];
    }
  }

  /** What TrimLeft leaves is a suffix of its input. */
  lemma {:induction false} TrimLeftSuffix(s: string, cut: Cutset)
    ensures TrimLeft(s, cut) == s[|s| - |TrimLeft(s, cut)|..]
    decreases |s|
  {
    if |s| > 0 && InCutset(cut, s[0]) {
      TrimLeftSuffix(s[1..], cut);
      assert s[1..][|s| - 1 - |TrimLeft(s, cut)|..] == s[|s| - |TrimLeft(s, cut)|..];
    }
  }

  /** What TrimRight leaves is a prefix of its input. */
  lemma {:induction false} TrimRightPrefix(s: string, cut: Cutset)
    ensures TrimRight(s, cut) == s[..|TrimRight(s, cut)|]
    decreases |s|
  {
    if |s| > 0 && InCutset(cut, s[|s| - 1]) {
      TrimRightPrefix(s[..|s| - 1], cut);
      assert s[..|s| - 1][..|TrimRight(s, cut)|] == s[..|TrimRight(s, cut)|];
    }
  }

  /** Trimming never brings in a character the string lacks. */
  lemma TrimLacks(s: string, cut: Cutset, c: char)
    requires c !in s
    ensures c !in Trim(s, cut)
  {
    var l := TrimLeft(s, cut);
    TrimLeftSuffix(s, cut);
    TrimRightPrefix(l, cut);
    SliceLacks(s, |s| - |l|, |s|, c);
    SliceLacks(l, 0, |TrimRight(l, cut)|, c);
  }

  /** `strings.TrimSpace`. */
  function TrimSpace(s: string): (r: string)
    ensures |r| > 0 ==> !IsGoSpace(r[0]) && !IsGoSpace(r[|r| - 1])
  {
    Trim(s, Space)
  }

  /** `strings.Trim(s, "/")`. */
  function TrimSlashes(s: string): (r: string)
    ensures |r| > 0 ==> r[0] != '/' && r[|r| - 1] != '/'
  {
    Trim(s, Char('/'))
  }

  predicate HasPrefix(s: string, prefix: string) { prefix <= s }

  predicate HasSuffix(s: string, suffix: string)
  {
    |suffix| <= |s| && s[|s| - |suffix|..] == suffix
  }

  /** `unicode.IsLower` restricted to ASCII letters. */
  predicate IsLowerAscii(c: char) { 'a' <= c <= 'z' }

  /** The name's first character is lower case (empty names never occur in Go). */
  predicate StartsLower(name: string) { |name| > 0 && IsLowerAscii(name[0]) }
}
