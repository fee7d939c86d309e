/** The configuration file loader: lines of the form key=value, read through a buffer of 1024 bytes. */
module Config {
  import opened Sequences
  import opened Varint

  const NUL := 0 as char
  const BUFFER: nat := 1024

  type Entry = (string, string)

  // ---- Strings as the standard library sees them -------------------------------------------------

  /** The first index of c at or after `from`, or -1. */
  function Find(s: string, c: char, from: nat): (i: int)
    requires from <= |s|
    ensures i == -1 || (from <= i < |s| && s[i] == c)
    ensures forall k :: from <= k < (if i == -1 then |s| else i) ==> s[k] != c
    decreases |s| - from
  {
    if from == |s| then -1 else if s[from] == c then from else Find(s, c, from + 1)
  }

  predicate AllSpaces(s: string) {
    forall k :: 0 <= k < |s| ==> s[k] == ' '
  }

  /** find_first_not_of(' '), from an index on */
  function FirstNotSpace(s: string, from: nat): (i: int)
    requires from <= |s|
    ensures i == -1 || (from <= i < |s| && s[i] != ' ')
    ensures forall k :: from <= k < (if i == -1 then |s| else i) ==> s[k] == ' '
    decreases |s| - from
  {
    if from == |s| then -1 else if s[from] != ' ' then from else FirstNotSpace(s, from + 1)
  }

  /** find_last_not_of(' '), among the first n characters */
  function LastNotSpace(s: string, n: nat): (i: int)
    requires n <= |s|
    ensures i == -1 || (0 <= i < n && s[i] != ' ')
    ensures forall k :: i < k < n ==> s[k] == ' '
  {
    if n == 0 then -1 else if s[n - 1] != ' ' then n - 1 else LastNotSpace(s, n - 1)
  }

  /** substr, which stops at the end of the string. */
  function Substr(s: string, pos: nat, count: nat): string
    requires pos <= |s|
  {
    if pos + count <= |s| then s[pos..pos + count] else s[pos..]
  }

  /** std::string(buf): up to the first NUL. */
  function CString(s: string): string {
    var i := Find(s, NUL, 0);
    if i == -1 then s else s[..i]
  }

  /** fgets: through the first newline, and at most 1023 characters. */
  function FgetsLength(s: string): (n: nat)
    ensures n <= |s| && n <= BUFFER - 1 && (s != "" ==> n > 0)
  {
    var newline := Find(s, '\n', 0);
    var line := if newline == -1 then |s| else newline + 1;
    if line <= BUFFER - 1 then line else BUFFER - 1
  }

  function TrimLeft(s: string): string {
    var first := FirstNotSpace(s, 0);
    if first == -1 then s else s[first..]
  }

  function TrimRight(s: string): string {
    var last := LastNotSpace(s, |s|);
    if last == -1 then s else s[..last + 1]
  }

  /** A string that is all spaces is left as it is. */
  function Trimmed(s: string): string {
    TrimRight(TrimLeft(s))
  }

  /** The key and the value of one trimmed buffer of input, with the spaces around them. */
  function SplitBuffer(readBuf: string): Option<Entry> {
    if readBuf == "" || readBuf[0] == '#' then None
    else
      var index := Find(readBuf, '=', 0);
      if index == -1 then None
      else
        var endIndex := Find(readBuf, '\n', index);
        // an int made into a size_t: -1 - index - 1 wraps round
        Some((readBuf[..index], Substr(readBuf, index + 1, (endIndex - index - 1) % TWO64)))
  }

  function TrimBoth(e: Option<Entry>): Option<Entry> {
    if e.None? then None else Some((Trimmed(e.value.0), Trimmed(e.value.1)))
  }

  /** What one buffer of input puts into the map. */
  function EntryOf(buf: string): Option<Entry> {
    TrimBoth(SplitBuffer(Trimmed(CString(buf))))
  }

  /** The entries in the order in which the loader meets them. */
  function Entries(file: string): seq<Entry>
    decreases |file|
  {
    if file == "" then []
    else
      var n := FgetsLength(file);
      Listed(EntryOf(file[..n])) + Entries(file[n..])
  }

  function Listed(e: Option<Entry>): seq<Entry> {
    if e.Some? then [e.value] else []
  }

  // ---- What trimming does ---------------------------------------------------------------------

  predicate Tight(s: string) {
    s != "" && s[0] != ' ' && s[|s| - 1] != ' '
  }

  lemma TrimLeftMeaning(s: string) returns (a: string)
    requires !AllSpaces(s)
    ensures AllSpaces(a) && s == a + TrimLeft(s) && TrimLeft(s) != "" && TrimLeft(s)[0] != ' '
  {
    a := s[..FirstNotSpace(s, 0)];
  }

  lemma TrimRightMeaning(s: string) returns (b: string)
    requires s != "" && s[0] != ' '
    ensures AllSpaces(b) && s == TrimRight(s) + b && TrimRight(s) != "" && TrimRight(s)[0] == s[0]
    ensures TrimRight(s)[|TrimRight(s)| - 1] != ' '
  {
    b := s[LastNotSpace(s, |s|) + 1..];
  }

  /** Trimming takes off spaces only, and leaves none at either end. */
  lemma TrimmedMeaning(s: string) returns (a: string, b: string)
    requires !AllSpaces(s)
    ensures AllSpaces(a) && AllSpaces(b) && Tight(Trimmed(s)) && s == a + (Trimmed(s) + b)
  {
    a := TrimLeftMeaning(s);
    b := TrimRightMeaning(TrimLeft(s));
  }

  lemma TrimLeftSkips(a: string, s: string)
    requires AllSpaces(a) && !AllSpaces(s)
    ensures TrimLeft(a + s) == TrimLeft(s)
  {
    var i := FirstNotSpace(s, 0);
    assert (a + s)[|a| + i] != ' ';
    assert FirstNotSpace(a + s, 0) == |a| + i;
  }

  lemma TrimLeftKeeps(s: string, b: string)
    requires !AllSpaces(s)
    ensures TrimLeft(s + b) == TrimLeft(s) + b
  {
    var i := FirstNotSpace(s, 0);
    assert (s + b)[i] != ' ';
    assert FirstNotSpace(s + b, 0) == i;
  }

  lemma TrimRightSkips(s: string, b: string)
    requires AllSpaces(b) && !AllSpaces(s)
    ensures TrimRight(s + b) == TrimRight(s)
  {
    var i := LastNotSpace(s, |s|);
    assert (s + b)[i] != ' ';
    assert LastNotSpace(s + b, |s + b|) == i;
  }

  lemma TrimmedSkips(a: string, s: string, b: string)
    requires AllSpaces(a) && AllSpaces(b) && !AllSpaces(s)
    ensures Trimmed(a + s) == Trimmed(s) && Trimmed(s + b) == Trimmed(s)
  {
    TrimLeftSkips(a, s);
    TrimLeftKeeps(s, b);
    var i := FirstNotSpace(s, 0);
    assert TrimLeft(s)[0] == s[i];
    TrimRightSkips(TrimLeft(s), b);
  }

  lemma TightIsTrimmed(s: string)
    requires Tight(s) || AllSpaces(s)
    ensures Trimmed(s) == s
  {
    if Tight(s) {
      assert FirstNotSpace(s, 0) == 0 && LastNotSpace(s, |s|) == |s| - 1;
    }
  }

  // ---- Line by line -----------------------------------------------------------------------------

  /** A text that fits in one read. */
  predicate IsText(text: string) {
    '\n' !in text && NUL !in text && |text| <= BUFFER - 1
  }

  /** A line without its newline, for which there is room. */
  predicate IsLine(line: string) {
    IsText(line) && |line| < BUFFER - 1
  }

  predicate IsComment(line: string) {
    var first := FirstNotSpace(line, 0);
    first != -1 && line[first] == '#'
  }

  /** The text before the first equals sign and the text after it, both without the spaces around
      them; a value that is all spaces stays. */
  function LineEntry(line: string): Option<Entry> {
    var index := Find(line, '=', 0);
    if index == -1 || IsComment(line) then None
    else Some((if AllSpaces(line[..index]) then "" else Trimmed(line[..index]), Trimmed(line[index + 1..])))
  }

  /** The value of this line is nothing but spaces. */
  predicate BlankValue(line: string) {
    var index := Find(line, '=', 0);
    index != -1 && !IsComment(line) && index + 1 < |line| && AllSpaces(line[index + 1..])
  }

  lemma NoNul(s: string)
    requires NUL !in s
    ensures CString(s) == s
  {
  }

  lemma TerminatedReads(line: string)
    requires IsLine(line)
    ensures Trimmed(CString(line + "\n")) == if AllSpaces(line) then "\n" else TrimLeft(line) + "\n"
  {
    NoNul(line + "\n");
    assert "\n"[0] != ' ';
    TightIsTrimmed("\n");
    if AllSpaces(line) {
      TrimmedSkips(line, "\n", "");
    } else {
      TrimLeftKeeps(line, "\n");
      EndsTight(TrimLeft(line));
    }
  }

  lemma EndsTight(t: string)
    ensures TrimRight(t + "\n") == t + "\n"
  {
    assert (t + "\n")[|t|] == '\n';
  }

  lemma FindIs(s: string, c: char, from: nat, i: int)
    requires from <= |s| && (i == -1 || (from <= i < |s| && s[i] == c))
    requires forall k :: from <= k < (if i == -1 then |s| else i) ==> s[k] != c
    ensures Find(s, c, from) == i
  {
  }

  /** The same for a text that starts with no space, with no newline to look for. */
  function SplitText(text: string): Option<Entry> {
    if text == "" || text[0] == '#' then None
    else
      var index := Find(text, '=', 0);
      if index == -1 then None else Some((text[..index], text[index + 1..]))
  }

  lemma TerminatedSplit(text: string)
    requires text != "" && '\n' !in text && |text| < BUFFER
    ensures SplitBuffer(text + "\n") == SplitText(text)
  {
    hide Find;
    var readBuf, index := text + "\n", Find(text, '=', 0);
    FindIs(readBuf, '=', 0, index);
    if index != -1 {
      FindIs(readBuf, '\n', index, |text|);
      SmallCount(|text| - index - 1);
      assert Substr(readBuf, index + 1, |text| - index - 1) == text[index + 1..];
      assert readBuf[..index] == text[..index];
    }
  }

  lemma SmallCount(n: nat)
    requires n < BUFFER
    ensures n % TWO64 == n && (-1 - n - 1) % TWO64 == TWO64 - n - 2
  {
  }

  /** Without a newline, the count that wraps round reaches the end of the buffer. */
  lemma UnterminatedSplit(text: string)
    requires '\n' !in text && |text| < BUFFER
    ensures SplitBuffer(text) == SplitText(text)
  {
    hide Find;
    var index := Find(text, '=', 0);
    if index != -1 {
      FindIs(text, '\n', index, -1);
      SmallCount(index);
      assert Substr(text, index + 1, TWO64 - index - 2) == text[index + 1..];
    }
  }

  lemma IndentedFind(line: string, first: nat)
    requires first <= |line| && AllSpaces(line[..first])
    ensures Find(line[first..], '=', 0) == var i := Find(line, '=', 0); if i == -1 then -1 else i - first
    ensures Find(line, '=', 0) == -1 || Find(line, '=', 0) >= first
  {
    hide Find;
    var i := Find(line, '=', 0);
    assert forall k :: 0 <= k < first ==> line[k] == line[..first][k];
    FindIs(line[first..], '=', 0, if i == -1 then -1 else i - first);
  }

  lemma IndentedEntry(line: string)
    requires !AllSpaces(line)
    ensures LineEntry(line) == TrimBoth(SplitText(TrimLeft(line)))
  {
    hide Trimmed, Find;
    var first, index := FirstNotSpace(line, 0), Find(line, '=', 0);
    IndentedFind(line, first);
    if index != -1 {
      assert line[first..][index - first + 1..] == line[index + 1..];
      KeyIgnoresIndent(line, first, index);
    }
  }

  lemma KeyIgnoresIndent(line: string, first: nat, index: nat)
    requires first <= index <= |line| && AllSpaces(line[..first])
    requires first < index ==> line[first] != ' '
    ensures Trimmed(line[first..][..index - first]) == if AllSpaces(line[..index]) then "" else Trimmed(line[..index])
  {
    var key := line[first..][..index - first];
    assert line[..index] == line[..first] + key;
    if first == index {
      assert key == "";
    } else {
      assert key[0] != ' ' && line[..index][first] != ' ';
      TrimmedSkips(line[..first], key, "");
    }
  }

  /** A line that ends in a newline gives the entry that it should. */
  lemma TerminatedLine(line: string)
    requires IsLine(line)
    ensures EntryOf(line + "\n") == LineEntry(line)
  {
    TerminatedReads(line);
    if AllSpaces(line) {
      FindIs("\n", '=', 0, -1);
      FindIs(line, '=', 0, -1);
    } else {
      var a := TrimLeftMeaning(line);
      assert forall c :: c in TrimLeft(line) ==> c in line;
      TerminatedSplit(TrimLeft(line));
      IndentedEntry(line);
    }
  }

  /** A line without a newline and what is read of it: the text between the spaces around it. */
  lemma UnterminatedReads(line: string) returns (a: string, text: string, b: string)
    requires IsText(line) && !AllSpaces(line)
    ensures line == a + (text + b) && AllSpaces(a) && AllSpaces(b) && Tight(text)
    ensures EntryOf(line) == TrimBoth(SplitText(text))
    ensures LineEntry(line) == TrimBoth(SplitText(text + b))
  {
    a := TrimLeftMeaning(line);
    b := TrimRightMeaning(TrimLeft(line));
    text := Trimmed(line);
    NoNul(line);
    assert forall c :: c in text ==> c in text + b;
    assert forall c :: c in text + b ==> c in line;
    UnterminatedSplit(text);
    IndentedEntry(line);
  }

  lemma LooseSplit(text: string, b: string)
    requires text != "" && AllSpaces(b)
    ensures SplitText(text + b) == var e := SplitText(text); if e.None? then None else Some((e.value.0, e.value.1 + b))
  {
    hide Find;
    var index := Find(text, '=', 0);
    FindIs(text + b, '=', 0, index);
    if index != -1 {
      assert (text + b)[..index] == text[..index];
      assert (text + b)[index + 1..] == text[index + 1..] + b;
    }
  }

  lemma LooseTrim(value: string, b: string)
    requires AllSpaces(b) && (value == "" || value[|value| - 1] != ' ')
    ensures Trimmed(value + b) == if value == "" then b else Trimmed(value)
    ensures Trimmed("") == ""
  {
    TightIsTrimmed("");
    TightIsTrimmed(b);
    if value == "" {
      assert value + b == b;
    } else {
      TrimmedSkips("", value, b);
    }
  }

  lemma IsBlank(line: string, a: string, text: string, b: string)
    requires line == a + (text + b) && AllSpaces(a) && AllSpaces(b) && Tight(text)
    ensures BlankValue(line) <==> SplitText(text).Some? && SplitText(text).value.1 == "" && b != ""
  {
    hide Find;
    var index := Find(text, '=', 0);
    assert line[|a|] == text[0];
    assert FirstNotSpace(line, 0) == |a|;
    assert line[..|a|] == a && line[|a|..] == text + b;
    IndentedFind(line, |a|);
    FindIs(text + b, '=', 0, index);
    if index != -1 {
      var value := line[|a| + index + 1..];
      assert value == text[index + 1..] + b;
      if index + 1 < |text| { assert value[|text| - index - 2] == text[|text| - 1]; }
      if index + 1 == |text| { assert value == b; }
    }
  }

  lemma CompareEnds(e: Option<Entry>, b: string, read: Option<Entry>, wanted: Option<Entry>)
    requires AllSpaces(b) && (e.Some? ==> e.value.1 == "" || e.value.1[|e.value.1| - 1] != ' ')
    requires read == TrimBoth(e)
    requires wanted == TrimBoth(if e.None? then None else Some((e.value.0, e.value.1 + b)))
    ensures read == wanted <==> !(e.Some? && e.value.1 == "" && b != "")
    ensures e.Some? && e.value.1 == "" ==> wanted.Some? && read == Some((wanted.value.0, ""))
  {
    if e.Some? { LooseTrim(e.value.1, b); }
  }

  lemma BlankLine(line: string)
    requires IsText(line) && AllSpaces(line)
    ensures EntryOf(line).None? && LineEntry(line).None? && !BlankValue(line)
  {
    NoNul(line);
    FindIs(line, '=', 0, -1);
  }

  lemma SplitEndsTight(text: string)
    requires Tight(text) && SplitText(text).Some?
    ensures var value := SplitText(text).value.1; value == "" || value[|value| - 1] != ' '
  {
    var index := Find(text, '=', 0);
    if index + 1 < |text| { assert text[index + 1..][|text| - index - 2] == text[|text| - 1]; }
  }

  /** A last line without a newline gives the same entry exactly when its value is not blank: a blank
      value is lost, where a newline after it would keep it. */
  lemma UnterminatedLine(line: string)
    requires IsText(line)
    ensures EntryOf(line) == LineEntry(line) <==> !BlankValue(line)
    ensures BlankValue(line) ==>
              LineEntry(line).Some? && EntryOf(line) == Some((LineEntry(line).value.0, ""))
  {
    if AllSpaces(line) {
      BlankLine(line);
    } else {
      var a, text, b := UnterminatedReads(line);
      IsBlank(line, a, text, b);
      LooseSplit(text, b);
      if SplitText(text).Some? { SplitEndsTight(text); }
      CompareEnds(SplitText(text), b, EntryOf(line), LineEntry(line));
    }
  }

  // ---- Whole files ------------------------------------------------------------------------------

  /** Lines, each with its newline. */
  function Unlines(lines: seq<string>): string {
    if lines == [] then "" else lines[0] + "\n" + Unlines(lines[1..])
  }

  function LineEntries(lines: seq<string>): seq<Entry> {
    if lines == [] then [] else Listed(LineEntry(lines[0])) + LineEntries(lines[1..])
  }

  lemma FgetsLine(line: string, rest: string)
    requires IsLine(line)
    ensures FgetsLength(line + "\n" + rest) == |line| + 1
    ensures (line + "\n" + rest)[..|line| + 1] == line + "\n" && (line + "\n" + rest)[|line| + 1..] == rest
  {
    var s := line + "\n" + rest;
    assert forall k :: 0 <= k < |line| ==> s[k] == line[k] && line[k] in line;
    FindIs(s, '\n', 0, |line|);
  }

  lemma FgetsLast(last: string)
    requires IsText(last)
    ensures FgetsLength(last) == |last|
  {
    assert forall k :: 0 <= k < |last| ==> last[k] in last;
    FindIs(last, '\n', 0, -1);
  }

  lemma EntriesLine(line: string, rest: string)
    requires IsLine(line)
    ensures Entries(line + "\n" + rest) == Listed(LineEntry(line)) + Entries(rest)
  {
    FgetsLine(line, rest);
    TerminatedLine(line);
  }

  lemma EntriesLast(last: string)
    requires IsText(last)
    ensures Entries(last) == if last == "" then [] else Listed(EntryOf(last))
  {
    if last != "" {
      FgetsLast(last);
      assert last[..|last|] == last && last[|last|..] == "";
    }
  }

  /** The loader equals a reader of whole lines, on files whose lines fit in its buffer; `last` is what
      follows the last newline. */
  lemma {:induction false} LoaderReadsLines(lines: seq<string>, last: string)
    requires (forall i :: 0 <= i < |lines| ==> IsLine(lines[i])) && IsText(last)
    ensures Entries(Unlines(lines) + last) ==
            LineEntries(lines) + if last == "" then [] else Listed(EntryOf(last))
    decreases |lines|
  {
    if lines == [] {
      assert "" + last == last;
      EntriesLast(last);
    } else {
      Assoc(lines[0] + "\n", Unlines(lines[1..]), last);
      EntriesLine(lines[0], Unlines(lines[1..]) + last);
      LoaderReadsLines(lines[1..], last);
      Assoc(Listed(LineEntry(lines[0])), LineEntries(lines[1..]), if last == "" then [] else Listed(EntryOf(last)));
    }
  }

  /** A longer line is read in pieces of 1023 characters, each of which counts as a line. */
  lemma LongLineSplits(file: string)
    requires |file| >= 1023 && '\n' !in file[..1023]
    ensures Entries(file) == Listed(EntryOf(file[..1023])) + Entries(file[1023..])
  {
    hide EntryOf;
    var piece := file[..1023];
    assert forall k :: 0 <= k < 1023 ==> file[k] == piece[k] && piece[k] in piece;
    assert FgetsLength(file) == 1023;
  }

  /** What follows a NUL in a buffer is not looked at. */
  lemma NulEndsBuffer(text: string, rest: string)
    requires NUL !in text
    ensures EntryOf(text + [NUL] + rest) == EntryOf(text)
  {
    hide Trimmed, SplitBuffer;
    var buf := text + [NUL] + rest;
    NoNul(text);
    assert forall k :: 0 <= k < |text| ==> buf[k] == text[k] && text[k] in text;
    assert buf[|text|] == NUL;
    FindIs(buf, NUL, 0, |text|);
    assert buf[..|text|] == text;
  }

  // ---- Writing a file and loading it --------------------------------------------------------------

  /** Keys and values that survive: no spaces around them (a value may be all spaces), and the key does
      not look like a comment or contain the separator. */
  predicate Writable(e: Entry) {
    && IsLine(LineOf(e))
    && (e.0 == "" || Tight(e.0)) && '=' !in e.0 && (e.0 == "" || e.0[0] != '#')
    && (AllSpaces(e.1) || Tight(e.1))
  }

  function LineOf(e: Entry): string {
    e.0 + "=" + e.1
  }

  function LinesOf(pairs: seq<Entry>): seq<string> {
    if pairs == [] then [] else [LineOf(pairs[0])] + LinesOf(pairs[1..])
  }

  lemma WrittenSplit(e: Entry)
    requires Writable(e)
    ensures var line := LineOf(e);
            Find(line, '=', 0) == |e.0| && line[..|e.0|] == e.0 && line[|e.0| + 1..] == e.1 && !IsComment(line)
  {
    hide Find;
    var line := LineOf(e);
    assert forall k :: 0 <= k < |e.0| ==> line[k] == e.0[k] && e.0[k] in e.0;
    FindIs(line, '=', 0, |e.0|);
    assert line[|e.0|] == '=';
    assert line[0] != ' ' && line[0] != '#';
    assert FirstNotSpace(line, 0) == 0;
  }

  lemma WrittenLine(e: Entry)
    requires Writable(e)
    ensures LineEntry(LineOf(e)) == Some(e)
  {
    WrittenSplit(e);
    TightIsTrimmed(e.0);
    TightIsTrimmed(e.1);
    assert e.0 != "" ==> !AllSpaces(e.0);
  }

  /** Loading what was written gives the pairs back, in order. */
  lemma {:induction false} WrittenFile(pairs: seq<Entry>)
    requires forall i :: 0 <= i < |pairs| ==> Writable(pairs[i])
    ensures |LinesOf(pairs)| == |pairs|
    ensures forall i :: 0 <= i < |pairs| ==> IsLine(LinesOf(pairs)[i])
    ensures LineEntries(LinesOf(pairs)) == pairs
  {
    if pairs != [] {
      WrittenLine(pairs[0]);
      WrittenFile(pairs[1..]);
      assert LinesOf(pairs)[1..] == LinesOf(pairs[1..]);
    }
  }

  lemma RoundTrip(pairs: seq<Entry>)
    requires forall i :: 0 <= i < |pairs| ==> Writable(pairs[i])
    ensures Entries(Unlines(LinesOf(pairs))) == pairs
  {
    WrittenFile(pairs);
    LoaderReadsLines(LinesOf(pairs), "");
    assert Unlines(LinesOf(pairs)) + "" == Unlines(LinesOf(pairs));
    assert pairs + [] == pairs;
  }

  /** What a key is given by loading a written file: the first value written for it. */
  lemma WrittenValue(pairs: seq<Entry>, key: string)
    requires forall i :: 0 <= i < |pairs| ==> Writable(pairs[i])
    ensures Lookup(EmplaceInto(map[], Entries(Unlines(LinesOf(pairs)))), key) == FirstOf(pairs, key)
  {
    RoundTrip(pairs);
    EmplaceIntoKeepsFirst(map[], pairs, key);
  }

  // ---- The object -----------------------------------------------------------------------------

  class Krpcconfig {
    var configMap: map<string, string>

    constructor ()
      ensures configMap == map[]
    {
      configMap := map[];
    }

    /** Every key gets the first value given for it, here or in an earlier file. */
    method LoadConfigFile(file: string)
      modifies this
      ensures configMap == EmplaceInto(old(configMap), Entries(file))
    {
      hide EntryOf;
      var rest := file;
      ghost var done: seq<Entry> := [];
      while rest != ""
        invariant done + Entries(rest) == Entries(file)
        invariant configMap == EmplaceInto(old(configMap), done)
        decreases |rest|
      {
        var entry;
        entry, rest := ReadBuffer(rest);
        Assoc(done, Listed(entry), Entries(rest));
        if entry.Some? {
          configMap := Emplace(configMap, entry.value.0, entry.value.1);
          Parts(done, [entry.value]);
        } else {
          assert done + Listed(entry) == done;
        }
        done := done + Listed(entry);
      }
      assert done + [] == done;
    }

    /** One turn of the loop, up to the insertion. */
    static method ReadBuffer(file: string) returns (entry: Option<Entry>, rest: string)
      requires file != ""
      ensures |rest| < |file| && Entries(file) == Listed(entry) + Entries(rest)
    {
      var n := FgetsLength(file);
      entry, rest := EntryOf(file[..n]), file[n..];
    }

    method Load(key: string) returns (value: string)
      ensures value == if key in configMap then configMap[key] else ""
    {
      if key !in configMap { return ""; }
      value := configMap[key];
    }
  }
}
