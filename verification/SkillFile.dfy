/**
 SKILL.md files: the front-matter pattern, its lines, and the header that is put
 before content without one.
 */
module SkillFiles {
  import opened Common
  import opened Texts

  /** What `splitlines` breaks at; all of it is space. */
  predicate IsBreak(c: char) {
    var n := c as int;
    10 <= n <= 13 || 28 <= n <= 30 || n == 0x85 || n == 0x2028 || n == 0x2029
  }

  predicate BreakFree(s: string) {
    forall i :: 0 <= i < |s| ==> !IsBreak(s[i])
  }

  function LineEnd(s: string): (e: nat)
    ensures e <= |s|
  {
    if s == "" || IsBreak(s[0]) then 0 else 1 + LineEnd(s[1..])
  }

  /** Carriage return and newline together are one break; a last break opens no line. */
  function SplitLines(s: string): seq<string>
    decreases |s|
  {
    if s == "" then []
    else
      var e := LineEnd(s);
      var next := if e == |s| then e else if s[e] == '\r' && e + 1 < |s| && s[e + 1] == '\n' then e + 2 else e + 1;
      [s[..e]] + if e == |s| then [] else SplitLines(s[next..])
  }

  predicate HasKey(line: string, key: string) {
    |line| >= |key| && forall i :: 0 <= i < |key| ==> Lower(line[i]) == key[i]
  }

  /** `line.split(":", 1)[1]`. */
  function AfterColon(line: string): string {
    if line == "" then "" else if line[0] == ':' then line[1..] else AfterColon(line[1..])
  }

  datatype Front = Front(name: string, description: string)

  /** Later lines win. */
  function ReadFront(lines: seq<string>): Front {
    if lines == [] then Front("", "")
    else
      var f, line := ReadFront(lines[..|lines| - 1]), lines[|lines| - 1];
      if HasKey(line, "name:") then f.(name := Strip(AfterColon(line)))
      else if HasKey(line, "description:") then f.(description := Strip(AfterColon(line)))
      else f
  }

  // ------------------------------------------------------------------ the pattern

  /** Where the run of space from `i` ends. */
  function SpaceEnd(s: string, i: nat): (e: nat)
    requires i <= |s|
    ensures i <= e <= |s|
    decreases |s| - i
  {
    if i < |s| && IsSpace(s[i]) then SpaceEnd(s, i + 1) else i
  }

  /** The last newline in a range: where a greedy run of space followed by a newline gives way. */
  function LastNewline(s: string, from: nat, end: nat): (k: Option<nat>)
    requires from <= end <= |s|
    ensures k.Some? ==> from <= k.value < end
    decreases end
  {
    if from == end then None
    else if s[end - 1] == '\n' then Some(end - 1)
    else LastNewline(s, from, end - 1)
  }

  predicate DashesAt(s: string, i: nat) {
    i + 3 <= |s| && s[i] == '-' && s[i + 1] == '-' && s[i + 2] == '-'
  }

  /** The newline that ends a closing line of dashes whose own newline is at `j`. */
  function Closing(s: string, j: nat): (k: Option<nat>)
    ensures k.Some? ==> j < k.value < |s|
  {
    if j < |s| && s[j] == '\n' && DashesAt(s, j + 1) then LastNewline(s, j + 4, SpaceEnd(s, j + 4)) else None
  }

  /** The first place from `j` on that closes the front matter. */
  function FirstClosing(s: string, j: nat): (r: Option<nat>)
    ensures r.Some? ==> j <= r.value && Closing(s, r.value).Some?
    decreases |s| - j
  {
    if j >= |s| then None
    else if Closing(s, j).Some? then Some(j)
    else FirstClosing(s, j + 1)
  }

  datatype Parts = NoFront | Parts(front: string, body: string)

  /** Tries the newlines after the opening dashes from the last one back to the first. */
  function MatchFrom(s: string, end: nat): Parts
    requires 3 <= end <= |s|
    decreases end
  {
    match LastNewline(s, 3, end)
    case None => NoFront
    case Some(i) =>
      match FirstClosing(s, i + 1)
      case Some(j) => Parts(s[i + 1..j], s[Closing(s, j).value + 1..])
      case None => MatchFrom(s, i)
  }

  function MatchFront(s: string): Parts {
    if DashesAt(s, 0) then MatchFrom(s, SpaceEnd(s, 3)) else NoFront
  }

  datatype Skill = Skill(name: string, description: string, body: string)

  function Parse(s: string): Skill {
    match MatchFront(s)
    case NoFront => Skill("skill", "", Strip(s))
    case Parts(front, body) =>
      var f := ReadFront(SplitLines(front));
      Skill(if f.name == "" then "skill" else f.name, f.description, Strip(body))
  }

  // ------------------------------------------------------------------ saving

  /** The name a header gets; `slug` is what the folder is called, itself "skill" when nothing else is left. */
  function Title(name: string, slug: string -> string): string {
    var clean := Strip(if name == "" then "skill" else name);
    if clean == "" then slug(clean) else clean
  }

  function WithHeader(title: string, content: string): string {
    "---\nname: " + title + "\ndescription: " + title + "\n---\n\n" + Strip(content) + "\n"
  }

  /** Content that opens with dashes is kept as it is. */
  function Saved(name: string, slug: string -> string, content: string): string {
    if DashesAt(LStrip(content), 0) then content else WithHeader(Title(name, slug), content)
  }

  lemma {:induction false} StripKeepsBreakFree(s: string)
    requires BreakFree(s)
    ensures BreakFree(Strip(s))
  {
    var a, b := StripIsSlice(s);
  }

  // ------------------------------------------------------------------ reading the header back

  function HeaderFront(title: string): string {
    NameLine(title) + "\n" + DescriptionLine(title)
  }

  function NameLine(title: string): string { "name: " + title }

  function DescriptionLine(title: string): string { "description: " + title }

  function Tail(content: string): string {
    "\n---\n\n" + Strip(content) + "\n"
  }

  lemma {:induction false} HeaderShape(title: string, content: string)
    ensures WithHeader(title, content) == "---\n" + HeaderFront(title) + Tail(content)
  {
    var t, b := title, Strip(content);
    assert "---\nname: " == "---\n" + "name: ";
    assert "\ndescription: " == "\n" + "description: ";
    assert WithHeader(title, content) == "---\n" + HeaderFront(title) + Tail(content);
  }

  lemma {:induction false} LineEndAt(s: string, n: nat)
    requires n <= |s| && BreakFree(s[..n]) && (n < |s| ==> IsBreak(s[n]))
    ensures LineEnd(s) == n
    decreases n
  {
    if n > 0 {
      assert s[..n][0] == s[0];
      assert s[1..][..n - 1] == s[..n][1..];
      LineEndAt(s[1..], n - 1);
    }
  }

  lemma {:induction false} TwoLines(a: string, b: string)
    requires BreakFree(a) && BreakFree(b) && b != ""
    ensures SplitLines(a + "\n" + b) == [a, b]
  {
    var s := a + "\n" + b;
    assert s[..|a|] == a && s[|a|] == '\n';
    LineEndAt(s, |a|);
    assert s[|a| + 1..] == b;
    assert b[..|b|] == b;
    LineEndAt(b, |b|);
  }

  lemma {:induction false} KeyedLine(key: string, value: string)
    requires ':' !in key && Trim(value)
    ensures Strip(AfterColon(key + ": " + value)) == value
  {
    if key == "" {
      assert (": " + value)[1..] == [' '] + value;
      assert key + ": " + value == ": " + value;
      StripOfTrim(value);
    } else {
      KeyedLine(key[1..], value);
      assert (key + ": " + value)[1..] == key[1..] + ": " + value;
    }
  }

  lemma {:induction false} ReadHeader(title: string)
    requires Trim(title) && BreakFree(title)
    ensures ReadFront(SplitLines(HeaderFront(title))) == Front(title, title)
  {
    var a, b := NameLine(title), DescriptionLine(title);
    assert BreakFree("name: ") && BreakFree("description: ");
    TwoLines(a, b);
    KeyedLine("name", title);
    KeyedLine("description", title);
    assert "name" + ": " == "name: " && "description" + ": " == "description: ";
    assert a[0] == 'n' && b[0] == 'd';
    var lines := [a, b];
    assert lines[..1] == [a] && lines[..1][..0] == lines[..0];
    NameKey(title);
    DescriptionKey(title);
    assert ReadFront(lines[..1]) == Front(title, "");
  }

  lemma {:induction false} NameKey(title: string)
    ensures HasKey(NameLine(title), "name:")
  {
    assert NameLine(title)[..5] == "name:";
    forall i | 0 <= i < 5
      ensures Lower(NameLine(title)[i]) == "name:"[i]
    {
      assert NameLine(title)[i] == NameLine(title)[..5][i];
      assert !('A' <= "name:"[i] <= 'Z');
    }
  }

  lemma {:induction false} DescriptionKey(title: string)
    ensures HasKey(DescriptionLine(title), "description:") && !HasKey(DescriptionLine(title), "name:")
  {
    assert DescriptionLine(title)[..12] == "description:";
    forall i | 0 <= i < 12
      ensures Lower(DescriptionLine(title)[i]) == "description:"[i]
    {
      assert DescriptionLine(title)[i] == DescriptionLine(title)[..12][i];
      assert !('A' <= "description:"[i] <= 'Z');
    }
    assert Lower(DescriptionLine(title)[0]) == 'd';
  }

  // ------------------------------------------------------------------ finding the header again

  lemma {:induction false} ClosingOfTail(s: string, j: nat, content: string)
    requires j <= |s| && s[j..] == Tail(content)
    ensures Closing(s, j) == Some(if Strip(content) == "" then j + 6 else j + 5)
    ensures Strip(s[Closing(s, j).value + 1..]) == Strip(content)
  {
    var b := Strip(content);
    StripTrims(content);
    StripOfTrim(b);
    var t := Tail(content);
    assert |t| == 7 + |b| && t[..6] == "\n---\n\n" && t[6..] == b + "\n";
    assert forall i :: 0 <= i < |t| ==> s[j + i] == t[i];
    assert s[j] == '\n' && s[j + 1] == '-' && s[j + 2] == '-' && s[j + 3] == '-';
    assert s[j + 4] == '\n' && s[j + 5] == '\n';
    assert s[j + 6..] == t[6..];
    if b == "" {
      assert t[6] == '\n' && |s| == j + 7;
      assert SpaceEnd(s, j + 7) == j + 7;
      assert SpaceEnd(s, j + 6) == j + 7;
      assert SpaceEnd(s, j + 5) == j + 7;
      assert SpaceEnd(s, j + 4) == j + 7;
      assert s[j + 7..] == "";
    } else {
      assert t[6] == b[0];
      assert SpaceEnd(s, j + 6) == j + 6;
      assert SpaceEnd(s, j + 5) == j + 6;
      assert SpaceEnd(s, j + 4) == j + 6;
      assert LastNewline(s, j + 4, j + 6) == Some(j + 5);
      assert s[j + 6..] == b + "\n";
    }
  }

  /** Inside the header no newline is followed by dashes. */
  lemma {:induction false} NoClosingInside(s: string, title: string, content: string, j: nat)
    requires s == "---\n" + HeaderFront(title) + Tail(content) && BreakFree(title)
    requires 4 <= j < 4 + |HeaderFront(title)|
    ensures Closing(s, j) == None
  {
    var f := HeaderFront(title);
    assert s[j] == f[j - 4];
    var n := |NameLine(title)|;
    if j - 4 == n {
      assert f[n + 1] == DescriptionLine(title)[0] == 'd';
      assert s[j + 1] == f[n + 1];
    } else if j - 4 < n {
      assert f[j - 4] == NameLine(title)[j - 4];
      NotNewline("name: ", title, j - 4);
    } else {
      assert f[j - 4] == DescriptionLine(title)[j - 4 - n - 1];
      NotNewline("description: ", title, j - 4 - n - 1);
    }
  }

  lemma {:induction false} NotNewline(lead: string, title: string, i: nat)
    requires BreakFree(lead) && BreakFree(title) && i < |lead + title|
    ensures (lead + title)[i] != '\n'
  {
    if i < |lead| {
      assert (lead + title)[i] == lead[i];
    } else {
      assert (lead + title)[i] == title[i - |lead|];
    }
  }

  lemma {:induction false} FirstClosingIs(s: string, from: nat, j: nat)
    requires from <= j < |s| && Closing(s, j).Some?
    requires forall i :: from <= i < j ==> Closing(s, i) == None
    ensures FirstClosing(s, from) == Some(j)
    decreases j - from
  {
    if from < j {
      FirstClosingIs(s, from + 1, j);
    }
  }

  lemma {:induction false} MatchHeader(title: string, content: string)
    requires BreakFree(title)
    ensures
      var p := MatchFront(WithHeader(title, content));
      p.Parts? && p.front == HeaderFront(title) && Strip(p.body) == Strip(content)
  {
    var s, f := WithHeader(title, content), HeaderFront(title);
    HeaderShape(title, content);
    var j := 4 + |f|;
    assert s[..4] == "---\n" && s[4..j] == f && s[j..] == Tail(content);
    assert s[0] == '-' && s[1] == '-' && s[2] == '-' && s[3] == '\n' && s[4] == f[0] == 'n';
    assert SpaceEnd(s, 4) == 4;
    assert SpaceEnd(s, 3) == 4;
    assert LastNewline(s, 3, 4) == Some(3);
    ClosingOfTail(s, j, content);
    forall i | 4 <= i < j
      ensures Closing(s, i) == None
    {
      NoClosingInside(s, title, content, i);
    }
    FirstClosingIs(s, 4, j);
  }

  /**
   What is saved is read back: for content that does not open with dashes, the title
   as name and description, and the trimmed content, whenever the title is free of
   line breaks.
   */
  lemma {:induction false} SaveThenParse(name: string, slug: string -> string, content: string)
    requires !DashesAt(LStrip(content), 0) && slug("") == "skill"
    requires BreakFree(if Strip(name) == "" then "skill" else Strip(name))
    ensures
      var title := if Strip(name) == "" then "skill" else Strip(name);
      Parse(Saved(name, slug, content)) == Skill(title, title, Strip(content))
  {
    var title := Title(name, slug);
    TitleMeaning(name, slug);
    StripTrims(if name == "" then "skill" else name);
    assert Trim("skill");
    MatchHeader(title, content);
    ReadHeader(title);
  }

  lemma {:induction false} TitleMeaning(name: string, slug: string -> string)
    requires slug("") == "skill"
    ensures Title(name, slug) == if Strip(name) == "" then "skill" else Strip(name)
  {
    assert Trim("skill");
    StripOfTrim("skill");
  }

  /** Content that begins with a header of its own is saved as it is. */
  lemma {:induction false} OwnHeaderIsKept(name: string, slug: string -> string, content: string)
    requires |LStrip(content)| >= 3 && LStrip(content)[..3] == "---"
    ensures Saved(name, slug, content) == content
  {
    assert LStrip(content)[0] == LStrip(content)[..3][0] && LStrip(content)[1] == LStrip(content)[..3][1]
           && LStrip(content)[2] == LStrip(content)[..3][2];
  }

  lemma {:induction false} LinesAreBreakFree(s: string)
    ensures forall l :: l in SplitLines(s) ==> BreakFree(l)
    decreases |s|
  {
    if s != "" {
      BeforeLineEnd(s);
      var e := LineEnd(s);
      if e < |s| {
        var next := if s[e] == '\r' && e + 1 < |s| && s[e + 1] == '\n' then e + 2 else e + 1;
        LinesAreBreakFree(s[next..]);
      }
    }
  }

  lemma {:induction false} BeforeLineEnd(s: string)
    ensures BreakFree(s[..LineEnd(s)])
  {
    if s != "" && !IsBreak(s[0]) {
      BeforeLineEnd(s[1..]);
      var e := LineEnd(s);
      assert s[..e] == [s[0]] + s[1..][..e - 1];
    }
  }

  lemma {:induction false} AfterColonBreakFree(line: string)
    requires BreakFree(line)
    ensures BreakFree(AfterColon(line))
  {
    if line != "" {
      assert BreakFree(line[1..]);
      if line[0] != ':' {
        AfterColonBreakFree(line[1..]);
      }
    }
  }

  lemma {:induction false} NamesAreBreakFree(lines: seq<string>)
    requires forall l :: l in lines ==> BreakFree(l)
    ensures BreakFree(ReadFront(lines).name)
  {
    if lines != [] {
      var line := lines[|lines| - 1];
      NamesAreBreakFree(lines[..|lines| - 1]);
      assert line in lines;
      AfterColonBreakFree(line);
      StripKeepsBreakFree(AfterColon(line));
    }
  }

  /**
   The title comes back exactly when it is free of line breaks, because no file
   whatever parses to a name with a line break in it.
   */
  lemma {:induction false} NameComesBackExactlyWhen(name: string, slug: string -> string, content: string)
    requires !DashesAt(LStrip(content), 0) && slug("") == "skill"
    ensures
      var title := if Strip(name) == "" then "skill" else Strip(name);
      Parse(Saved(name, slug, content)).name == title <==> BreakFree(title)
  {
    TitleMeaning(name, slug);
    if BreakFree(Title(name, slug)) {
      SaveThenParse(name, slug, content);
    } else {
      ParsedNameIsBreakFree(Saved(name, slug, content));
    }
  }

  lemma {:induction false} ParsedNameIsBreakFree(s: string)
    ensures BreakFree(Parse(s).name)
  {
    assert BreakFree("skill");
    match MatchFront(s) {
      case NoFront =>
      case Parts(front, body) =>
        LinesAreBreakFree(front);
        NamesAreBreakFree(SplitLines(front));
    }
  }

  // ------------------------------------------------------------------ choosing a skill

  predicate IsLetter(c: char) {
    'a' <= c <= 'z'
  }

  function RunEnd(s: string): (e: nat)
    ensures e <= |s| && (forall i :: 0 <= i < e ==> IsLetter(s[i])) && (e < |s| ==> !IsLetter(s[e]))
  {
    if s == "" || !IsLetter(s[0]) then 0 else 1 + RunEnd(s[1..])
  }

  /** The words of at least four letters. */
  function Words(s: string): set<string>
    decreases |s|
  {
    if s == "" then {}
    else if !IsLetter(s[0]) then Words(s[1..])
    else
      var e := RunEnd(s);
      (if e >= 4 then {s[..e]} else {}) + Words(s[e..])
  }

  /** A longest run of letters, four or more. */
  predicate WordAt(s: string, i: int, j: int) {
    && 0 <= i && i + 4 <= j <= |s|
    && (forall k :: i <= k < j ==> IsLetter(s[k]))
    && (i > 0 ==> !IsLetter(s[i - 1])) && (j < |s| ==> !IsLetter(s[j]))
  }

  /** Words are made of the small letters of ASCII. */
  lemma {:induction false} LettersAre(c: char)
    ensures IsLetter(c) <==> c in "abcdefghijklmnopqrstuvwxyz"
  {
    if IsLetter(c) {
      assert "abcdefghijklmnopqrstuvwxyz"[c as int - 'a' as int] == c;
    }
  }

  lemma {:induction false} FirstRun(s: string)
    requires RunEnd(s) >= 4
    ensures WordAt(s, 0, RunEnd(s))
  {
  }

  lemma {:induction false} ShiftWord(s: string, k: nat, i: int, j: int)
    requires 0 < k <= |s| && i >= 0 && (!IsLetter(s[k - 1]) || k == |s| || !IsLetter(s[k]))
    ensures WordAt(s[k..], i, j) <==> WordAt(s, i + k, j + k)
  {
    if WordAt(s[k..], i, j) {
      forall n | i + k <= n < j + k
        ensures IsLetter(s[n])
      {
        assert s[k..][n - k] == s[n];
      }
      assert IsLetter(s[k..][i]);
    }
    if WordAt(s, i + k, j + k) {
      assert IsLetter(s[i + k]);
      assert forall n :: i <= n < j ==> s[k..][n] == s[n + k];
    }
  }

  /** A word that starts before the end of the first run is that run. */
  lemma {:induction false} FirstWord(s: string, i: int, j: int)
    requires WordAt(s, i, j) && i < RunEnd(s)
    ensures i == 0 && j == RunEnd(s)
  {
  }

  /** Where the search for words goes on. */
  function Onward(s: string): (k: nat)
    requires s != ""
    ensures 0 < k <= |s| && (!IsLetter(s[k - 1]) || k == |s| || !IsLetter(s[k]))
  {
    if RunEnd(s) == 0 then 1 else RunEnd(s)
  }

  lemma {:induction false} WordsStep(s: string)
    requires s != ""
    ensures Words(s) == (if RunEnd(s) >= 4 then {s[..RunEnd(s)]} else {}) + Words(s[Onward(s)..])
  {
  }

  lemma {:induction false} SliceShift(s: string, k: nat, i: int, j: int)
    requires k <= |s| && 0 <= i <= j <= |s| - k
    ensures s[k..][i..j] == s[i + k..j + k]
  {
  }

  lemma {:induction false} LaterWord(s: string, i: int, j: int)
    requires s != "" && WordAt(s, i, j) && i >= RunEnd(s)
    ensures i >= Onward(s) && WordAt(s[Onward(s)..], i - Onward(s), j - Onward(s))
    ensures s[Onward(s)..][i - Onward(s)..j - Onward(s)] == s[i..j]
  {
    var k := Onward(s);
    assert IsLetter(s[i]);
    ShiftWord(s, k, i - k, j - k);
    SliceShift(s, k, i - k, j - k);
  }

  lemma {:induction false} RunOnward(s: string, a: int, b: int)
    requires s != "" && WordAt(s[Onward(s)..], a, b)
    ensures WordAt(s, a + Onward(s), b + Onward(s)) && s[Onward(s)..][a..b] == s[a + Onward(s)..b + Onward(s)]
  {
    ShiftWord(s, Onward(s), a, b);
    SliceShift(s, Onward(s), a, b);
  }

  lemma {:induction false} WordsAreRuns(s: string, w: string) returns (i: int, j: int)
    requires w in Words(s)
    ensures WordAt(s, i, j) && w == s[i..j]
    decreases |s|
  {
    WordsStep(s);
    if RunEnd(s) >= 4 && w == s[..RunEnd(s)] {
      FirstRun(s);
      i, j := 0, RunEnd(s);
    } else {
      var k := Onward(s);
      var a, b := WordsAreRuns(s[k..], w);
      RunOnward(s, a, b);
      i, j := a + k, b + k;
    }
  }

  lemma {:induction false} RunsAreWords(s: string, i: int, j: int)
    requires WordAt(s, i, j)
    ensures s[i..j] in Words(s)
    decreases |s|
  {
    WordsStep(s);
    if i < RunEnd(s) {
      FirstWord(s, i, j);
    } else {
      LaterWord(s, i, j);
      RunsAreWords(s[Onward(s)..], i - Onward(s), j - Onward(s));
    }
  }

  /** The words are exactly the longest runs of at least four letters. */
  lemma {:induction false} WordsMeaning(s: string, w: string)
    ensures w in Words(s) <==> exists i, j :: WordAt(s, i, j) && w == s[i..j]
  {
    if w in Words(s) {
      var i, j := WordsAreRuns(s, w);
    }
    forall i, j | WordAt(s, i, j) && w == s[i..j]
      ensures w in Words(s)
    {
      RunsAreWords(s, i, j);
    }
  }

  /** `name.replace("-", " ")`. */
  function Spaced(name: string): string {
    seq(|name|, i requires 0 <= i < |name| => if name[i] == '-' then ' ' else name[i])
  }

  /** Shared words, and three more when the whole name occurs in the request; `low` is the request in lower case. */
  function Score(lower: string -> string, low: string, s: Skill): nat {
    |Words(low) * Words(lower(Spaced(s.name) + " " + s.description))| + if Contains(low, Spaced(s.name)) then 3 else 0
  }

  /** The first of the best-scoring skills, when it scores at all and enough. */
  method Match(skills: seq<Skill>, lower: string -> string, query: string, minScore: int) returns (best: Option<nat>)
    ensures best.Some? ==> best.value < |skills| && BestAt(skills, lower, query, minScore, best.value)
    ensures best.None? <==> forall i :: 0 <= i < |skills| ==> Unfit(skills, lower, query, minScore, i)
  {
    best := None;
    var low, bestScore := lower(query), 0;
    for n := 0 to |skills|
      invariant best.None? ==> bestScore == 0
      invariant best.Some? ==> best.value < n && bestScore == Score(lower, low, skills[best.value]) > 0
      invariant best.Some? ==> forall i :: 0 <= i < best.value ==> Score(lower, low, skills[i]) < bestScore
      invariant forall i :: 0 <= i < n ==> Score(lower, low, skills[i]) <= bestScore
    {
      var score := Score(lower, low, skills[n]);
      if score > bestScore {
        best, bestScore := Some(n), score;
      }
    }
    if bestScore < minScore {
      best := None;
    }
    assert best.Some? ==> !Unfit(skills, lower, query, minScore, best.value);
  }

  /** No skill scores more, none before it as much, and its score is positive and high enough. */
  predicate BestAt(skills: seq<Skill>, lower: string -> string, query: string, minScore: int, k: nat)
    requires k < |skills|
  {
    var score := Score(lower, lower(query), skills[k]);
    && score > 0 && score >= minScore
    && (forall i :: 0 <= i < |skills| ==> Score(lower, lower(query), skills[i]) <= score)
    && (forall i :: 0 <= i < k ==> Score(lower, lower(query), skills[i]) < score)
  }

  predicate Unfit(skills: seq<Skill>, lower: string -> string, query: string, minScore: int, i: nat)
    requires i < |skills|
  {
    Score(lower, lower(query), skills[i]) == 0 || Score(lower, lower(query), skills[i]) < minScore
  }

  /** The word occurs in the text, as a maximal run of letters. */
  ghost predicate Occurs(s: string, w: string) {
    exists i, j :: WordAt(s, i, j) && w == s[i..j]
  }

  /** The score: one for every word that the request and the skill share, and 3 if the request contains the name. */
  lemma {:induction false} ScoreMeaning(lower: string -> string, low: string, s: Skill)
    returns (common: set<string>, spoken: string)
    ensures |spoken| == |s.name|
    ensures forall i :: 0 <= i < |spoken| ==> spoken[i] == if s.name[i] == '-' then ' ' else s.name[i]
    ensures forall w :: w in common <==> Occurs(low, w) && Occurs(lower(spoken + " " + s.description), w)
    ensures Score(lower, low, s) == |common| + if exists i :: 0 <= i <= |low| && spoken <= low[i..] then 3 else 0
  {
    spoken := Spaced(s.name);
    var text := lower(Spaced(s.name) + " " + s.description);
    common := Words(low) * Words(text);
    forall w
      ensures w in common <==> Occurs(low, w) && Occurs(text, w)
    {
      WordsMeaning(low, w);
      WordsMeaning(text, w);
    }
    ContainsMeaning(low, Spaced(s.name));
  }

  // ------------------------------------------------------------------ hand-written headers

  /** What comes after the first colon. */
  lemma {:induction false} AfterColonMeaning(key: string, value: string)
    ensures ':' !in key ==> AfterColon(key + ":" + value) == value
    ensures ':' !in key ==> AfterColon(key) == ""
  {
    if key != "" {
      AfterColonMeaning(key[1..], value);
      assert (key + ":" + value)[1..] == key[1..] + ":" + value;
      assert forall c :: c in key[1..] ==> c in key;
    } else {
      assert (key + ":" + value)[1..] == value;
    }
  }

  /** Line `k` is the last that gives a name, or a description. */
  ghost predicate LastNamed(lines: seq<string>, k: int) {
    && 0 <= k < |lines| && HasKey(lines[k], "name:")
    && forall j :: k < j < |lines| ==> !HasKey(lines[j], "name:")
  }

  ghost predicate LastDescribed(lines: seq<string>, k: int) {
    && 0 <= k < |lines| && HasKey(lines[k], "description:")
    && forall j :: k < j < |lines| ==> !HasKey(lines[j], "description:")
  }

  lemma {:induction false} KeysDiffer(line: string)
    ensures !(HasKey(line, "name:") && HasKey(line, "description:"))
  {
    assert "name:"[0] == 'n' && "description:"[0] == 'd';
  }

  lemma {:induction false} NameMeaning(lines: seq<string>)
    ensures forall k :: LastNamed(lines, k) ==> ReadFront(lines).name == Strip(AfterColon(lines[k]))
    ensures (forall k :: 0 <= k < |lines| ==> !HasKey(lines[k], "name:")) ==> ReadFront(lines).name == ""
  {
    if lines != [] {
      var n := |lines| - 1;
      NameMeaning(lines[..n]);
      NameNext(lines, n);
    }
  }

  lemma {:induction false} NameNext(lines: seq<string>, n: nat)
    requires n + 1 == |lines|
    ensures ReadFront(lines).name ==
            if HasKey(lines[n], "name:") then Strip(AfterColon(lines[n])) else ReadFront(lines[..n]).name
    ensures forall k :: LastNamed(lines, k) && k < n ==> !HasKey(lines[n], "name:") && LastNamed(lines[..n], k)
    ensures forall k :: 0 <= k < n ==> lines[..n][k] == lines[k]
  {
    KeysDiffer(lines[n]);
  }

  lemma {:induction false} DescriptionNext(lines: seq<string>, n: nat)
    requires n + 1 == |lines|
    ensures ReadFront(lines).description ==
            if HasKey(lines[n], "description:") then Strip(AfterColon(lines[n])) else ReadFront(lines[..n]).description
    ensures forall k :: LastDescribed(lines, k) && k < n ==>
              !HasKey(lines[n], "description:") && LastDescribed(lines[..n], k)
    ensures forall k :: 0 <= k < n ==> lines[..n][k] == lines[k]
  {
    KeysDiffer(lines[n]);
  }

  lemma {:induction false} DescriptionMeaning(lines: seq<string>)
    ensures forall k :: LastDescribed(lines, k) ==> ReadFront(lines).description == Strip(AfterColon(lines[k]))
    ensures (forall k :: 0 <= k < |lines| ==> !HasKey(lines[k], "description:")) ==> ReadFront(lines).description == ""
  {
    if lines != [] {
      var n := |lines| - 1;
      DescriptionMeaning(lines[..n]);
      DescriptionNext(lines, n);
    }
  }

  /** The name in a header is that of the last line that gives one, and so is the description; else they are empty. */
  lemma {:induction false} FrontMeaning(lines: seq<string>)
    ensures forall k :: LastNamed(lines, k) ==> ReadFront(lines).name == Strip(AfterColon(lines[k]))
    ensures forall k :: LastDescribed(lines, k) ==> ReadFront(lines).description == Strip(AfterColon(lines[k]))
    ensures (forall k :: 0 <= k < |lines| ==> !HasKey(lines[k], "name:")) ==> ReadFront(lines).name == ""
    ensures (forall k :: 0 <= k < |lines| ==> !HasKey(lines[k], "description:")) ==> ReadFront(lines).description == ""
  {
    NameMeaning(lines);
    DescriptionMeaning(lines);
  }

  /** Line breaks are these ten characters, and space these and a few more. */
  lemma {:induction false} BreaksAre(c: char)
    ensures IsBreak(c) <==> c as int in {10, 11, 12, 13, 28, 29, 30, 133, 8232, 8233}
    ensures IsBreak(c) ==> IsSpace(c)
    ensures IsSpace(c) <==>
            IsBreak(c) || c as int in {9, 31, 32, 160, 5760, 8239, 8287, 12288} || 8192 <= c as int <= 8202
  {
  }

  /** A line ends at its first break; a carriage return and a newline together are one break. */
  lemma {:induction false} LineThenRest(line: string, c: char, rest: string)
    requires BreakFree(line) && IsBreak(c)
    ensures !(c == '\r' && rest != "" && rest[0] == '\n') ==>
              SplitLines(line + [c] + rest) == [line] + SplitLines(rest)
    ensures c == '\r' && rest != "" && rest[0] == '\n' ==>
              SplitLines(line + [c] + rest) == [line] + SplitLines(rest[1..])
    ensures line != "" ==> SplitLines(line) == [line]
  {
    var s := line + [c] + rest;
    assert s[..|line|] == line && s[|line|] == c && s[|line| + 1..] == rest;
    LineEndAt(s, |line|);
    assert line[..|line|] == line;
    LineEndAt(line, |line|);
    if rest != "" {
      assert s[|line| + 1] == rest[0] && s[|line| + 2..] == rest[1..];
    }
  }

  // ------------------------------------------------------------------ what the pattern matches

  /** From `from` up to the newline at `e` there is only space. */
  ghost predicate BlankUpTo(s: string, from: nat, e: int) {
    from <= e < |s| && s[e] == '\n' && forall k :: from <= k < e ==> IsSpace(s[k])
  }

  /** The text begins with a line of three dashes and space, whose newline is at `i`. */
  ghost predicate Opens(s: string, i: int) {
    |s| >= 3 && s[0] == '-' && s[1] == '-' && s[2] == '-' && BlankUpTo(s, 3, i)
  }

  /** After the newline at `j` comes such a line, whose own newline is at `e`. */
  ghost predicate Closes(s: string, j: int, e: int) {
    && 0 <= j && j + 3 < |s| && s[j] == '\n' && s[j + 1] == '-' && s[j + 2] == '-' && s[j + 3] == '-'
    && BlankUpTo(s, j + 4, e)
  }

  lemma {:induction false} SpaceRun(s: string, from: nat)
    requires from <= |s|
    ensures forall k :: from <= k < SpaceEnd(s, from) ==> IsSpace(s[k])
    ensures SpaceEnd(s, from) < |s| ==> !IsSpace(s[SpaceEnd(s, from)])
    decreases |s| - from
  {
    if from < |s| && IsSpace(s[from]) {
      SpaceRun(s, from + 1);
    }
  }

  lemma {:induction false} BlankIsInRun(s: string, from: nat, e: int)
    requires from <= |s|
    ensures BlankUpTo(s, from, e) <==> from <= e < SpaceEnd(s, from) && s[e] == '\n'
  {
    SpaceRun(s, from);
  }

  /** The last newline of a range, or none. */
  lemma {:induction false} LastNewlineIs(s: string, from: nat, end: nat)
    requires from <= end <= |s|
    ensures LastNewline(s, from, end) == None <==> forall k :: from <= k < end ==> s[k] != '\n'
    ensures LastNewline(s, from, end).Some? ==>
      && s[LastNewline(s, from, end).value] == '\n'
      && forall k :: LastNewline(s, from, end).value < k < end ==> s[k] != '\n'
    decreases end
  {
    if from < end && s[end - 1] != '\n' {
      LastNewlineIs(s, from, end - 1);
    }
  }

  lemma {:induction false} ClosingMeaning(s: string, j: nat)
    ensures Closing(s, j) == None <==> forall e :: !Closes(s, j, e)
    ensures Closing(s, j).Some? ==> Closes(s, j, Closing(s, j).value)
    ensures Closing(s, j).Some? ==> forall e :: e > Closing(s, j).value ==> !Closes(s, j, e)
  {
    if j < |s| && s[j] == '\n' && DashesAt(s, j + 1) {
      LastNewlineIs(s, j + 4, SpaceEnd(s, j + 4));
      forall e
        ensures Closes(s, j, e) <==> j + 4 <= e < SpaceEnd(s, j + 4) && s[e] == '\n'
      {
        BlankIsInRun(s, j + 4, e);
      }
    }
  }

  /** Nothing closes from `from` on, up to `to`. */
  ghost predicate NoneCloses(s: string, from: int, to: int) {
    forall j, e :: from <= j < to ==> !Closes(s, j, e)
  }

  lemma {:induction false} FirstClosingMeaning(s: string, from: nat)
    ensures FirstClosing(s, from) == None ==> NoneCloses(s, from, |s|)
    ensures FirstClosing(s, from).Some? ==> NoneCloses(s, from, FirstClosing(s, from).value)
    decreases |s| - from
  {
    if from < |s| {
      ClosingMeaning(s, from);
      if Closing(s, from) == None {
        FirstClosingMeaning(s, from + 1);
      }
    }
  }

  /** The match that is taken: the last opening with a closing after it, its first closing, the last newline of that. */
  ghost predicate Taken(s: string, i: int, j: int, e: int, end: int) {
    && BlankUpTo(s, 3, i) && i < end && i < j && Closes(s, j, e)
    && NoneCloses(s, i + 1, j) && (forall f :: f > e ==> !Closes(s, j, f))
    && (forall k :: i < k < end && BlankUpTo(s, 3, k) ==> NoneCloses(s, k + 1, |s|))
  }

  ghost predicate NoMatch(s: string, end: int) {
    forall i :: i < end && BlankUpTo(s, 3, i) ==> NoneCloses(s, i + 1, |s|)
  }

  lemma {:induction false} MatchFromMeaning(s: string, end: nat)
    requires |s| >= 3 && 3 <= end <= SpaceEnd(s, 3)
    ensures MatchFrom(s, end) == NoFront ==> NoMatch(s, end)
    ensures MatchFrom(s, end).Parts? ==> exists i, j, e ::
              Taken(s, i, j, e, end) && MatchFrom(s, end) == Parts(s[i + 1..j], s[e + 1..])
    decreases end
  {
    LastNewlineIs(s, 3, end);
    forall k
      ensures k < end && BlankUpTo(s, 3, k) <==> 3 <= k < end && s[k] == '\n'
    {
      BlankIsInRun(s, 3, k);
    }
    match LastNewline(s, 3, end)
    case None =>
    case Some(i) =>
      FirstClosingMeaning(s, i + 1);
      match FirstClosing(s, i + 1)
      case Some(j) =>
        ClosingMeaning(s, j);
        assert Taken(s, i, j, Closing(s, j).value, end);
      case None =>
        MatchFromMeaning(s, i);
        TakenLater(s, i, end);
        if MatchFrom(s, i).Parts? {
          var a, j, e :| Taken(s, a, j, e, i) && MatchFrom(s, i) == Parts(s[a + 1..j], s[e + 1..]);
          assert Taken(s, a, j, e, end);
        }
  }

  lemma {:induction false} TakenLater(s: string, i: nat, end: nat)
    requires i < end && NoneCloses(s, i + 1, |s|) && forall k :: i < k < end ==> !BlankUpTo(s, 3, k)
    ensures forall a, j, e :: Taken(s, a, j, e, i) ==> Taken(s, a, j, e, end)
    ensures NoMatch(s, i) ==> NoMatch(s, end)
  {
  }

  /**
   The pattern: front matter lies between a first line of dashes and a later one, of the
   possible ones the last that opens, the first that closes it; and a text has none if
   and only if no line of dashes at its beginning is followed by another.
   */
  lemma {:induction false} FrontMatterMeaning(s: string)
    ensures MatchFront(s) == NoFront <==> forall i, j, e :: Opens(s, i) && i < j ==> !Closes(s, j, e)
    ensures MatchFront(s).Parts? ==> exists i, j, e ::
              && Opens(s, i) && i < j && Closes(s, j, e) && MatchFront(s) == Parts(s[i + 1..j], s[e + 1..])
              && NoneCloses(s, i + 1, j) && (forall f :: f > e ==> !Closes(s, j, f))
              && (forall k :: k > i && Opens(s, k) ==> NoneCloses(s, k + 1, |s|))
  {
    if DashesAt(s, 0) {
      var end := SpaceEnd(s, 3);
      MatchFromMeaning(s, end);
      forall k
        ensures Opens(s, k) <==> BlankUpTo(s, 3, k) && k < end
      {
        BlankIsInRun(s, 3, k);
      }
      if MatchFront(s).Parts? {
        var i, j, e :| Taken(s, i, j, e, end) && MatchFrom(s, end) == Parts(s[i + 1..j], s[e + 1..]);
        assert Opens(s, i);
      }
    }
  }

  /** What a file says: without front matter it is all body; a skill without a name is called "skill". */
  lemma {:induction false} ParseMeaning(s: string)
    ensures MatchFront(s) == NoFront ==> Parse(s) == Skill("skill", "", Strip(s))
    ensures MatchFront(s).Parts? ==>
      var front := ReadFront(SplitLines(MatchFront(s).front));
      Parse(s) == Skill(if front.name != "" then front.name else "skill", front.description, Strip(MatchFront(s).body))
  {
  }
}
