/** Cutting text as Python's strings do. */
module Texts {
  /** `s.split(sep)` for a separator of one character. */
  function Split(s: string, sep: char): (parts: seq<string>)
    ensures |parts| >= 1
  {
    if s == "" then [""]
    else
      var rest := Split(s[1..], sep);
      if s[0] == sep then [""] + rest else [[s[0]] + rest[0]] + rest[1..]
  }

  /** `sep.join(parts)`. */
  function Join(parts: seq<string>, sep: string): string {
    if parts == [] then ""
    else if |parts| == 1 then parts[0]
    else parts[0] + sep + Join(parts[1..], sep)
  }

  /** One part more comes after one more separator. */
  lemma {:induction false} JoinAppend(parts: seq<string>, part: string, sep: string)
    ensures Join(parts + [part], sep) == if parts == [] then part else Join(parts, sep) + sep + part
  {
    if |parts| > 1 {
      JoinAppend(parts[1..], part, sep);
      assert (parts + [part])[1..] == parts[1..] + [part];
      assert parts[0] + sep + (Join(parts[1..], sep) + sep + part) ==
             parts[0] + sep + Join(parts[1..], sep) + sep + part;
    } else if |parts| == 1 {
      assert (parts + [part])[1..] == [part];
    }
  }

  lemma {:induction false} SplitFirst(a: string, sep: char, s: string)
    requires sep !in a
    ensures Split(a + [sep] + s, sep) == [a] + Split(s, sep)
  {
    if a == "" {
      assert (a + [sep] + s)[1..] == s;
    } else {
      SplitFirst(a[1..], sep, s);
      assert (a + [sep] + s)[1..] == a[1..] + [sep] + s;
      assert [a[0]] + a[1..] == a;
    }
  }

  lemma {:induction false} SplitWhole(a: string, sep: char)
    requires sep !in a
    ensures Split(a, sep) == [a]
  {
    if a != "" {
      SplitWhole(a[1..], sep);
      assert [a[0]] + a[1..] == a;
    }
  }

  /** Splitting loses nothing. */
  lemma {:induction false} JoinOfSplit(s: string, sep: char)
    ensures Join(Split(s, sep), [sep]) == s
  {
    if s != "" {
      JoinOfSplit(s[1..], sep);
      var rest := Split(s[1..], sep);
      assert s == [s[0]] + s[1..];
      if s[0] == sep {
        assert ([""] + rest)[1..] == rest;
      } else {
        var parts := [[s[0]] + rest[0]] + rest[1..];
        assert parts[1..] == rest[1..];
        if |rest| > 1 {
          assert [s[0]] + rest[0] + [sep] + Join(rest[1..], [sep]) ==
                 [s[0]] + (rest[0] + [sep] + Join(rest[1..], [sep]));
        }
      }
    }
  }

  lemma {:induction false} PartsLackSeparator(s: string, sep: char)
    ensures forall p :: p in Split(s, sep) ==> sep !in p
  {
    if s != "" {
      PartsLackSeparator(s[1..], sep);
      var rest := Split(s[1..], sep);
      assert rest[0] in rest;
    }
  }

  /** What Python's `isspace`, `strip` and `split()` take for space. */
  predicate IsSpace(c: char) {
    var n := c as int;
    9 <= n <= 13 || 28 <= n <= 32 || n == 0x85 || n == 0xA0 || n == 0x1680 || 0x2000 <= n <= 0x200A
    || n == 0x2028 || n == 0x2029 || n == 0x202F || n == 0x205F || n == 0x3000
  }

  function WordEnd(s: string): (e: nat)
    ensures e <= |s|
  {
    if s == "" || IsSpace(s[0]) then 0 else 1 + WordEnd(s[1..])
  }

  /** `s.split()`: the runs of characters between space. */
  function SplitSpace(s: string): seq<string>
    decreases |s|
  {
    if s == "" then []
    else if IsSpace(s[0]) then SplitSpace(s[1..])
    else [s[..WordEnd(s)]] + SplitSpace(s[WordEnd(s)..])
  }

  /** Space between words counts for nothing... */
  lemma {:induction false} SplitSpaceSkips(c: char, s: string)
    requires IsSpace(c)
    ensures SplitSpace([c] + s) == SplitSpace(s)
  {
    assert ([c] + s)[1..] == s;
  }

  lemma {:induction false} WordEndOf(w: string, s: string)
    requires (forall c :: c in w ==> !IsSpace(c)) && (s == "" || IsSpace(s[0]))
    ensures WordEnd(w + s) == |w|
  {
    if w == "" {
      assert w + s == s;
    } else {
      assert (w + s)[1..] == w[1..] + s && (w + s)[0] == w[0] && w[0] in w;
      assert forall c :: c in w[1..] ==> c in w;
      WordEndOf(w[1..], s);
    }
  }

  /** ... and a run of other characters is a word. */
  lemma {:induction false} SplitSpaceTakes(w: string, s: string)
    requires w != "" && (forall c :: c in w ==> !IsSpace(c)) && (s == "" || IsSpace(s[0]))
    ensures SplitSpace(w + s) == [w] + SplitSpace(s)
  {
    WordEndOf(w, s);
    assert (w + s)[0] == w[0] && w[0] in w;
    assert (w + s)[..|w|] == w && (w + s)[|w|..] == s;
  }

  /** `needle in hay`. */
  predicate Contains(hay: string, needle: string) {
    needle <= hay || (hay != "" && Contains(hay[1..], needle))
  }

  /** `needle in hay` means that it occurs somewhere. */
  lemma {:induction false} ContainsMeaning(hay: string, needle: string)
    ensures Contains(hay, needle) <==> exists i :: 0 <= i <= |hay| && needle <= hay[i..]
  {
    if needle <= hay {
      assert hay[0..] == hay;
    } else if hay != "" {
      ContainsMeaning(hay[1..], needle);
      if Contains(hay[1..], needle) {
        var i :| 0 <= i <= |hay[1..]| && needle <= hay[1..][i..];
        assert hay[1..][i..] == hay[i + 1..];
      }
      forall i | 0 <= i <= |hay| && needle <= hay[i..]
        ensures Contains(hay[1..], needle)
      {
        assert hay[0..] == hay;
        assert hay[1..][i - 1..] == hay[i..];
      }
    }
  }

  /** `repr` of a string without quotes, backslashes and characters that are not printable. */
  function Quoted(s: string): string {
    "'" + s + "'"
  }

  /** `lower`, on the letters of ASCII. */
  function Lower(c: char): char {
    if 'A' <= c <= 'Z' then (c as int + 32) as char else c
  }

  // ------------------------------------------------------------------ stripping

  function LStrip(s: string): string {
    if s != "" && IsSpace(s[0]) then LStrip(s[1..]) else s
  }

  function RStrip(s: string): string {
    if s != "" && IsSpace(s[|s| - 1]) then RStrip(s[..|s| - 1]) else s
  }

  /** `s.strip()`. */
  function Strip(s: string): string {
    RStrip(LStrip(s))
  }

  lemma {:induction false} LStripIsSlice(s: string) returns (a: nat)
    ensures a <= |s| && LStrip(s) == s[a..] && (a > 0 ==> IsSpace(s[a - 1]))
    ensures a < |s| ==> !IsSpace(s[a])
  {
    if s != "" && IsSpace(s[0]) {
      a := LStripIsSlice(s[1..]);
      assert s[1..][a..] == s[a + 1..];
      a := a + 1;
    } else {
      a := 0;
    }
  }

  lemma {:induction false} RStripIsSlice(s: string) returns (b: nat)
    ensures b <= |s| && RStrip(s) == s[..b] && (b < |s| ==> IsSpace(s[b]))
    ensures b > 0 ==> !IsSpace(s[b - 1])
  {
    if s != "" && IsSpace(s[|s| - 1]) {
      b := RStripIsSlice(s[..|s| - 1]);
      assert s[..|s| - 1][..b] == s[..b];
    } else {
      b := |s|;
    }
  }

  /** Stripping cuts at space. */
  lemma {:induction false} StripIsSlice(s: string) returns (a: nat, b: nat)
    ensures a <= b <= |s| && Strip(s) == s[a..b]
    ensures (a > 0 ==> IsSpace(s[a - 1])) && (b < |s| ==> IsSpace(s[b]))
  {
    a := LStripIsSlice(s);
    b := RStripIsSlice(s[a..]);
    assert s[a..][..b] == s[a..a + b];
    b := a + b;
  }

  /** Neither end of a text is space. */
  predicate Trim(s: string) {
    s != "" ==> !IsSpace(s[0]) && !IsSpace(s[|s| - 1])
  }

  lemma {:induction false} StripTrims(s: string)
    ensures Trim(Strip(s))
  {
    var a := LStripIsSlice(s);
    var b := RStripIsSlice(s[a..]);
  }

  lemma {:induction false} StripOfTrim(s: string)
    requires Trim(s)
    ensures Strip(s) == s && Strip([' '] + s) == s && Strip(s + "\n") == s
  {
    assert ([' '] + s)[1..] == s;
    assert (s + "\n")[..|s|] == s;
    if s != "" {
      assert (s + "\n")[0] == s[0];
    } else {
      assert "\n"[1..] == "";
    }
  }
}
