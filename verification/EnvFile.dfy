/**
 * Rewriting an env file (scripts/deploy.ts:134-162): drop the lines this run owns, tidy the blank lines of what is
 * left, and append the new block.
 */
module EnvFile {
  import opened Common

  // ---------- lines ----------

  /** One more character in front of a list of lines. */
  function Cons(c: char, lines: seq<string>): seq<string>
    requires lines != []
  {
    if c == '\n' then [""] + lines else [[c] + lines[0]] + lines[1..]
  }

  /** existing.split("\n"): never empty. */
  function Split(s: string): (lines: seq<string>)
    ensures lines != []
    ensures forall i | 0 <= i < |lines| :: '\n' !in lines[i]
  {
    if s == "" then [""] else Cons(s[0], Split(s[1..]))
  }

  lemma ConsAppend(c: char, lines: seq<string>, more: seq<string>)
    requires lines != []
    ensures Cons(c, lines + more) == Cons(c, lines) + more
  {
  }

  function Join(lines: seq<string>): string {
    if lines == [] then ""
    else if |lines| == 1 then lines[0]
    else lines[0] + "\n" + Join(lines[1..])
  }

  lemma {:induction false} SplitLine(p: string, r: string)
    requires '\n' !in p
    ensures Split(p + "\n" + r) == [p] + Split(r)
    ensures Split(p) == [p]
  {
    if p == "" {
      assert (p + "\n" + r)[1..] == r;
    } else {
      SplitLine(p[1..], r);
      assert (p + "\n" + r)[1..] == p[1..] + "\n" + r;
      assert [p[0]] + p[1..] == p;
    }
  }

  lemma {:induction false} SplitText(a: string, b: string)
    ensures Split(a + "\n" + b) == Split(a) + Split(b)
  {
    if a == "" {
      assert (a + "\n" + b)[1..] == b;
    } else {
      SplitText(a[1..], b);
      assert (a + "\n" + b)[1..] == a[1..] + "\n" + b;
      ConsAppend(a[0], Split(a[1..]), Split(b));
    }
  }

  lemma {:induction false} SplitJoin(lines: seq<string>)
    requires lines != [] && forall i | 0 <= i < |lines| :: '\n' !in lines[i]
    ensures Split(Join(lines)) == lines
  {
    if |lines| == 1 {
      SplitLine(lines[0], "");
    } else {
      SplitJoin(lines[1..]);
      SplitLine(lines[0], Join(lines[1..]));
    }
  }

  lemma {:induction false} SplitPushBack(s: string, c: char)
    requires c != '\n'
    ensures var lines := Split(s); var n := |lines| - 1;
            Split(s + [c]) == lines[..n] + [lines[n] + [c]]
  {
    if s == "" {
      assert s + [c] == [c] && "" + [c] == [c];
      SplitLine([c], "");
    } else {
      SplitPushBack(s[1..], c);
      assert (s + [c])[1..] == s[1..] + [c];
      ConsPushBack(s[0], Split(s[1..]), c);
    }
  }

  lemma ConsPushBack(first: char, rest: seq<string>, c: char)
    requires rest != []
    ensures var n, all := |rest| - 1, Cons(first, rest); var m := |all| - 1;
            Cons(first, rest[..n] + [rest[n] + [c]]) == all[..m] + [all[m] + [c]]
  {
    if |rest| == 1 {
      assert [first] + (rest[0] + [c]) == ([first] + rest[0]) + [c];
    }
  }

  // ---------- one line ----------

  /** \s */
  predicate IsSpace(c: char) {
    || c in {' ', '\t', '\n', '\r', '\U{000B}', '\U{000C}', '\U{00A0}', '\U{1680}', '\U{2028}', '\U{2029}', '\U{202F}', '\U{205F}', '\U{3000}', '\U{FEFF}'}
    || '\U{2000}' <= c <= '\U{200A}'
  }

  predicate IsKeyChar(c: char) {
    'A' <= c <= 'Z' || '0' <= c <= '9' || c == '_'
  }

  function SkipSpace(s: string): string {
    if s != "" && IsSpace(s[0]) then SkipSpace(s[1..]) else s
  }

  function KeyChars(s: string): (key: string)
    ensures |key| <= |s|
  {
    if s != "" && IsKeyChar(s[0]) then [s[0]] + KeyChars(s[1..]) else ""
  }

  /** replace(/\s+$/, "") */
  function TrimEnd(s: string): string {
    if s != "" && IsSpace(s[|s| - 1]) then TrimEnd(s[..|s| - 1]) else s
  }

  /** `KEY=value` in the eyes of the expression ^\s*([A-Z0-9_]+)\s*= ; blanks behind a value do not count. */
  datatype Pair = Pair(key: string, value: string)

  function Parse(line: string): Option<Pair> {
    var start := SkipSpace(line);
    var key := KeyChars(start);
    var rest := SkipSpace(start[|key|..]);
    if key != "" && rest != "" && rest[0] == '=' then Some(Pair(key, TrimEnd(rest[1..]))) else None
  }

  const MARKER := "# ZizaLend contracts \U{2014}"

  predicate IsMarker(line: string) {
    MARKER <= line
  }

  predicate Drops(owned: set<string>, line: string) {
    IsMarker(line) || (Parse(line).Some? && Parse(line).value.key in owned)
  }

  // ---------- the pipeline ----------

  function Filter(lines: seq<string>, owned: set<string>): seq<string> {
    if lines == [] then []
    else (if Drops(owned, lines[0]) then [] else [lines[0]]) + Filter(lines[1..], owned)
  }

  /** replace(/\n{3,}/g, "\n\n") */
  function Collapse(s: string): string {
    if |s| >= 3 && s[0] == '\n' && s[1] == '\n' && s[2] == '\n' then Collapse(s[1..])
    else if s == "" then ""
    else [s[0]] + Collapse(s[1..])
  }

  /** replace(/^\n+/, "") */
  function TrimStart(s: string): string {
    if s != "" && s[0] == '\n' then TrimStart(s[1..]) else s
  }

  function Kept(existing: string, owned: set<string>): string {
    TrimEnd(TrimStart(Collapse(Join(Filter(Split(existing), owned)))))
  }

  function Keys(entries: seq<Pair>): set<string> {
    set e <- entries :: e.key
  }

  function EntryLines(entries: seq<Pair>): seq<string> {
    if entries == [] then [] else [entries[0].key + "=" + entries[0].value] + EntryLines(entries[1..])
  }

  /** The whole file after writeEnvBlock; a missing file reads as "". */
  function WriteEnvBlock(existing: string, header: string, entries: seq<Pair>): string {
    Kept(existing, Keys(entries)) + "\n" + Join([header] + EntryLines(entries)) + "\n"
  }

  // ---------- what survives the tidying ----------

  /** A line that reads as nothing when empty, and does not change its reading with blanks at its end. */
  ghost predicate IgnoresBlanks(f: string -> seq<Pair>) {
    f("") == [] && forall line, c: char :: IsSpace(c) ==> f(line + [c]) == f(line)
  }

  function OfLines(lines: seq<string>, f: string -> seq<Pair>): seq<Pair> {
    if lines == [] then [] else f(lines[0]) + OfLines(lines[1..], f)
  }

  /** What f reads in a text, line by line. */
  function Reads(s: string, f: string -> seq<Pair>): seq<Pair> {
    OfLines(Split(s), f)
  }

  lemma {:induction false} OfLinesAppend(a: seq<string>, b: seq<string>, f: string -> seq<Pair>)
    ensures OfLines(a + b, f) == OfLines(a, f) + OfLines(b, f)
  {
    if a == [] {
      assert a + b == b;
    } else {
      assert (a + b)[1..] == a[1..] + b;
      OfLinesAppend(a[1..], b, f);
    }
  }

  lemma ReadsText(a: string, b: string, f: string -> seq<Pair>)
    ensures Reads(a + "\n" + b, f) == Reads(a, f) + Reads(b, f)
  {
    SplitText(a, b);
    OfLinesAppend(Split(a), Split(b), f);
  }

  lemma {:induction false} CollapseKeeps(p: string, s: string, f: string -> seq<Pair>)
    requires '\n' !in p && IgnoresBlanks(f)
    ensures Reads(p + Collapse(s), f) == Reads(p + s, f)
    decreases |s|
  {
    hide Reads;
    if s == "" {
    } else if s[0] != '\n' {
      CollapseKeeps(p + [s[0]], s[1..], f);
      assert p + s == p + [s[0]] + s[1..];
      assert p + Collapse(s) == p + [s[0]] + Collapse(s[1..]);
    } else if |s| >= 3 && s[1] == '\n' && s[2] == '\n' {
      CollapseKeeps(p, s[1..], f);
      ReadsBlankLine(p, s[2..], f);
      assert s == "\n" + "\n" + s[2..];
      assert p + s == p + "\n" + "\n" + s[2..] && p + s[1..] == p + "\n" + s[2..];
    } else {
      CollapseKeeps("", s[1..], f);
      ReadsText(p, s[1..], f);
      ReadsText(p, Collapse(s[1..]), f);
      assert p + s == p + "\n" + s[1..];
      assert p + Collapse(s) == p + "\n" + Collapse(s[1..]);
      assert "" + s[1..] == s[1..] && "" + Collapse(s[1..]) == Collapse(s[1..]);
    }
  }

  lemma ReadsBlankLine(p: string, r: string, f: string -> seq<Pair>)
    requires IgnoresBlanks(f)
    ensures Reads(p + "\n" + "\n" + r, f) == Reads(p + "\n" + r, f)
  {
    hide Reads;
    ReadsText(p + "\n", r, f);
    ReadsText(p, "", f);
    ReadsText(p, r, f);
    ReadsEmpty(f);
    assert p + "\n" == p + "\n" + "";
  }

  lemma ReadsEmpty(f: string -> seq<Pair>)
    requires IgnoresBlanks(f)
    ensures Reads("", f) == []
  {
    assert [""][1..] == [];
  }

  lemma {:induction false} TrimStartKeeps(s: string, f: string -> seq<Pair>)
    requires IgnoresBlanks(f)
    ensures Reads(TrimStart(s), f) == Reads(s, f)
  {
    if s != "" && s[0] == '\n' {
      TrimStartKeeps(s[1..], f);
      ReadsText("", s[1..], f);
      ReadsEmpty(f);
      assert s == "" + "\n" + s[1..];
    }
  }

  lemma {:induction false} TrimEndKeeps(s: string, f: string -> seq<Pair>)
    requires IgnoresBlanks(f)
    ensures Reads(TrimEnd(s), f) == Reads(s, f)
  {
    hide Split, IsSpace;
    if s != "" && IsSpace(s[|s| - 1]) {
      var init, c := s[..|s| - 1], s[|s| - 1];
      TrimEndKeeps(init, f);
      assert s == init + [c];
      if c == '\n' {
        ReadsText(init, "", f);
        ReadsEmpty(f);
        assert s == init + "\n" + "";
      } else {
        var lines := Split(init);
        var n := |lines| - 1;
        SplitPushBack(init, c);
        OfLinesAppend(lines[..n], [lines[n]], f);
        OfLinesAppend(lines[..n], [lines[n] + [c]], f);
        assert lines == lines[..n] + [lines[n]];
        assert OfLines([lines[n] + [c]], f) == f(lines[n] + [c]) + [];
        assert OfLines([lines[n]], f) == f(lines[n]) + [];
      }
    }
  }

  lemma {:induction false} FilterReads(lines: seq<string>, owned: set<string>, f: string -> seq<Pair>, g: string -> seq<Pair>)
    requires forall line :: g(line) == if Drops(owned, line) then [] else f(line)
    ensures OfLines(Filter(lines, owned), f) == OfLines(lines, g)
  {
    if lines != [] {
      FilterReads(lines[1..], owned, f, g);
      assert g(lines[0]) == if Drops(owned, lines[0]) then [] else f(lines[0]);
      if Drops(owned, lines[0]) {
        assert Filter(lines, owned) == Filter(lines[1..], owned);
      } else {
        assert Filter(lines, owned)[1..] == Filter(lines[1..], owned);
      }
    }
  }

  lemma {:induction false} FilterMembers(lines: seq<string>, owned: set<string>)
    ensures forall line <- Filter(lines, owned) :: line in lines && !Drops(owned, line)
    ensures (forall line <- lines :: !Drops(owned, line)) ==> Filter(lines, owned) == lines
  {
    if lines != [] { FilterMembers(lines[1..], owned); }
  }

  /** The tidying changes nothing that can be read off the lines which were kept. */
  lemma KeptReads(existing: string, owned: set<string>, f: string -> seq<Pair>, g: string -> seq<Pair>)
    requires IgnoresBlanks(f) && forall line :: g(line) == if Drops(owned, line) then [] else f(line)
    ensures Reads(Kept(existing, owned), f) == Reads(existing, g)
  {
    var lines := Filter(Split(existing), owned);
    var joined := Join(lines);
    FilterMembers(Split(existing), owned);
    FilterReads(Split(existing), owned, f, g);
    if lines == [] { ReadsEmpty(f); } else { JoinReads(lines, f); }
    CollapseKeeps("", joined, f);
    assert "" + joined == joined && "" + Collapse(joined) == Collapse(joined);
    TrimStartKeeps(Collapse(joined), f);
    TrimEndKeeps(TrimStart(Collapse(joined)), f);
  }

  lemma JoinReads(lines: seq<string>, f: string -> seq<Pair>)
    requires lines != [] && forall line <- lines :: '\n' !in line
    ensures Reads(Join(lines), f) == OfLines(lines, f)
  {
    SplitJoin(lines);
  }

  // ---------- reading the file ----------

  function PairOf(line: string): seq<Pair> {
    if Parse(line).Some? then [Parse(line).value] else []
  }

  /** The assignments of a file, top to bottom. */
  function Pairs(s: string): seq<Pair> {
    Reads(s, PairOf)
  }

  /** First match. */
  function Lookup(pairs: seq<Pair>, key: string): Option<string> {
    if pairs == [] then None
    else if pairs[0].key == key then Some(pairs[0].value)
    else Lookup(pairs[1..], key)
  }

  function Unowned(pairs: seq<Pair>, owned: set<string>): seq<Pair> {
    if pairs == [] then []
    else (if pairs[0].key in owned then [] else [pairs[0]]) + Unowned(pairs[1..], owned)
  }

  function Trimmed(entries: seq<Pair>): seq<Pair> {
    if entries == [] then [] else [Pair(entries[0].key, TrimEnd(entries[0].value))] + Trimmed(entries[1..])
  }

  predicate IsKey(key: string) {
    key != "" && forall i | 0 <= i < |key| :: IsKeyChar(key[i])
  }

  /** Distinct keys of the expression's alphabet, and values that stay on their line. */
  predicate FitsOnLines(entries: seq<Pair>) {
    && (forall i | 0 <= i < |entries| :: IsKey(entries[i].key) && '\n' !in entries[i].value)
    && (forall i, j | 0 <= i < j < |entries| :: entries[i].key != entries[j].key)
  }

  lemma {:induction false} SkipSpaceBack(s: string, c: char)
    requires IsSpace(c)
    ensures SkipSpace(s + [c]) == if SkipSpace(s) == "" then "" else SkipSpace(s) + [c]
  {
    if s == "" {
      assert SkipSpace([c]) == SkipSpace([c][1..]);
      assert s + [c] == [c] && [c][1..] == "";
    } else {
      assert (s + [c])[1..] == s[1..] + [c];
      SkipSpaceBack(s[1..], c);
    }
  }

  lemma {:induction false} KeyCharsBack(s: string, c: char)
    requires IsSpace(c)
    ensures KeyChars(s + [c]) == KeyChars(s)
  {
    if s == "" {
      assert s + [c] == [c];
    } else {
      assert (s + [c])[1..] == s[1..] + [c];
      KeyCharsBack(s[1..], c);
    }
  }

  lemma ParseBack(line: string, c: char)
    requires IsSpace(c)
    ensures Parse(line + [c]) == Parse(line)
  {
    var start := SkipSpace(line);
    SkipSpaceBack(line, c);
    if start != "" {
      var key := KeyChars(start);
      KeyCharsBack(start, c);
      assert (start + [c])[|key|..] == start[|key|..] + [c];
      var rest := SkipSpace(start[|key|..]);
      SkipSpaceBack(start[|key|..], c);
      if rest != "" {
        assert (rest + [c])[1..] == rest[1..] + [c];
        assert (rest[1..] + [c])[..|rest[1..]|] == rest[1..];
      }
    }
  }

  lemma PairOfIgnoresBlanks()
    ensures IgnoresBlanks(PairOf)
  {
    forall line, c: char | IsSpace(c) ensures PairOf(line + [c]) == PairOf(line) { ParseBack(line, c); }
  }

  // ---------- what a write does to the assignments ----------

  lemma MarkerIsNoPair(line: string)
    requires IsMarker(line)
    ensures PairOf(line) == []
  {
    assert line[0] == MARKER[0] == '#';
    assert SkipSpace(line) == line && KeyChars(line) == "";
  }

  lemma {:induction false} UnownedAppend(a: seq<Pair>, b: seq<Pair>, owned: set<string>)
    ensures Unowned(a + b, owned) == Unowned(a, owned) + Unowned(b, owned)
  {
    if a == [] {
      assert a + b == b;
    } else {
      assert (a + b)[1..] == a[1..] + b;
      UnownedAppend(a[1..], b, owned);
    }
  }

  function PairUnlessDropped(owned: set<string>): string -> seq<Pair> {
    line => if Drops(owned, line) then [] else PairOf(line)
  }

  lemma {:induction false} UnownedLines(lines: seq<string>, owned: set<string>)
    ensures OfLines(lines, PairUnlessDropped(owned)) == Unowned(OfLines(lines, PairOf), owned)
  {
    if lines != [] {
      UnownedLines(lines[1..], owned);
      UnownedAppend(PairOf(lines[0]), OfLines(lines[1..], PairOf), owned);
      if IsMarker(lines[0]) { MarkerIsNoPair(lines[0]); }
      assert PairOf(lines[0]) != [] ==> PairOf(lines[0])[1..] == [];
    }
  }

  lemma KeptPairs(existing: string, owned: set<string>)
    ensures Pairs(Kept(existing, owned)) == Unowned(Pairs(existing), owned)
  {
    PairOfIgnoresBlanks();
    KeptReads(existing, owned, PairOf, PairUnlessDropped(owned));
    UnownedLines(Split(existing), owned);
  }

  lemma {:induction false} KeyCharsOfKey(key: string, rest: string)
    requires forall i | 0 <= i < |key| :: IsKeyChar(key[i])
    requires rest == "" || !IsKeyChar(rest[0])
    ensures KeyChars(key + rest) == key
  {
    if key == "" {
      assert key + rest == rest;
    } else {
      assert (key + rest)[1..] == key[1..] + rest;
      KeyCharsOfKey(key[1..], rest);
    }
  }

  lemma EntryParses(key: string, value: string)
    requires IsKey(key)
    ensures Parse(key + "=" + value) == Some(Pair(key, TrimEnd(value)))
  {
    var line := key + "=" + value;
    assert line[0] == key[0] && IsKeyChar(line[0]) && !IsSpace(line[0]);
    assert line == key + ("=" + value);
    KeyCharsOfKey(key, "=" + value);
    assert line[|key|..] == "=" + value && ("=" + value)[1..] == value;
  }

  lemma {:induction false} EntryLinesRead(entries: seq<Pair>)
    requires FitsOnLines(entries)
    ensures OfLines(EntryLines(entries), PairOf) == Trimmed(entries)
    ensures |EntryLines(entries)| == |entries| && forall i | 0 <= i < |entries| :: '\n' !in EntryLines(entries)[i]
    ensures forall i | 0 <= i < |entries| :: Parse(EntryLines(entries)[i]).Some? && Parse(EntryLines(entries)[i]).value.key == entries[i].key
  {
    hide Parse, KeyChars;
    if entries != [] {
      var e := entries[0];
      EntryLinesRead(entries[1..]);
      EntryParses(e.key, e.value);
      assert forall i | 0 <= i < |e.key| :: e.key[i] != '\n';
      assert EntryLines(entries)[1..] == EntryLines(entries[1..]);
    }
  }

  /** The header the deployment passes: an empty line, then the marker. */
  predicate IsHeader(header: string, title: string) {
    header == "\n" + MARKER + title && '\n' !in title
  }

  lemma BlockLines(header: string, title: string, entries: seq<Pair>)
    requires IsHeader(header, title) && FitsOnLines(entries)
    ensures Split(Join([header] + EntryLines(entries))) == ["", MARKER + title] + EntryLines(entries)
  {
    hide Split, Join, EntryLines;
    var line := MARKER + title;
    EntryLinesRead(entries);
    assert '\n' !in line;
    assert header == "\n" + line;
    SplitJoin(["", line] + EntryLines(entries));
    JoinHeader(line, EntryLines(entries));
  }

  lemma BlockPairs(header: string, title: string, entries: seq<Pair>)
    requires IsHeader(header, title) && FitsOnLines(entries)
    ensures Pairs(Join([header] + EntryLines(entries))) == Trimmed(entries)
  {
    hide Split, Join, EntryLines, PairOf, Trimmed;
    var line := MARKER + title;
    BlockLines(header, title, entries);
    EntryLinesRead(entries);
    MarkerIsNoPair(line);
    PairOfIgnoresBlanks();
    OfLinesAppend(["", line], EntryLines(entries), PairOf);
    assert ["", line][1..] == [line] && [line][1..] == [];
  }

  lemma JoinHeader(line: string, lines: seq<string>)
    ensures Join(["\n" + line] + lines) == Join(["", line] + lines)
  {
    var a, b := ["\n" + line] + lines, ["", line] + lines;
    assert b[1..] == [line] + lines && a[1..] == lines && b[1..][1..] == lines;
    if lines == [] {
      assert Join(b) == "" + "\n" + line;
    } else {
      assert Join(b) == "" + "\n" + (line + "\n" + Join(lines));
      assert Join(a) == ("\n" + line) + "\n" + Join(lines);
    }
  }

  /** Read top to bottom, the new file is the old one without the owned keys, then the entries: everything else keeps
      its value and its place. */
  lemma WrittenPairs(existing: string, header: string, title: string, entries: seq<Pair>)
    requires IsHeader(header, title) && FitsOnLines(entries)
    ensures Pairs(WriteEnvBlock(existing, header, entries)) == Unowned(Pairs(existing), Keys(entries)) + Trimmed(entries)
  {
    hide Reads, Kept, Join, EntryLines;
    var kept, block := Kept(existing, Keys(entries)), Join([header] + EntryLines(entries));
    KeptPairs(existing, Keys(entries));
    BlockPairs(header, title, entries);
    PairOfIgnoresBlanks();
    ReadsEmpty(PairOf);
    ReadsText(kept, block + "\n" + "", PairOf);
    ReadsText(block, "", PairOf);
    assert kept + "\n" + block + "\n" == kept + "\n" + (block + "\n" + "");
  }

  lemma {:induction false} LookupAppend(a: seq<Pair>, b: seq<Pair>, key: string)
    ensures Lookup(a + b, key) == if Lookup(a, key).Some? then Lookup(a, key) else Lookup(b, key)
  {
    if a == [] {
      assert a + b == b;
    } else {
      assert (a + b)[1..] == a[1..] + b;
      LookupAppend(a[1..], b, key);
    }
  }

  lemma {:induction false} LookupUnowned(pairs: seq<Pair>, owned: set<string>, key: string)
    ensures Lookup(Unowned(pairs, owned), key) == if key in owned then None else Lookup(pairs, key)
  {
    if pairs != [] {
      LookupUnowned(pairs[1..], owned, key);
      LookupAppend(if pairs[0].key in owned then [] else [pairs[0]], Unowned(pairs[1..], owned), key);
      assert [pairs[0]][1..] == [];
    }
  }

  lemma {:induction false} LookupEntry(entries: seq<Pair>, key: string)
    requires FitsOnLines(entries)
    ensures key !in Keys(entries) ==> Lookup(Trimmed(entries), key) == None
    ensures forall i | 0 <= i < |entries| :: entries[i].key == key ==> Lookup(Trimmed(entries), key) == Some(TrimEnd(entries[i].value))
  {
    if entries != [] {
      LookupEntry(entries[1..], key);
      assert entries[0] in entries;
    }
  }

  /** By first match, every owned key now has the new value, and every other key the value it had. */
  lemma LooksUpTheNewValues(existing: string, header: string, title: string, entries: seq<Pair>, key: string)
    requires IsHeader(header, title) && FitsOnLines(entries)
    ensures var after := Pairs(WriteEnvBlock(existing, header, entries));
            && (forall i | 0 <= i < |entries| :: entries[i].key == key ==> Lookup(after, key) == Some(TrimEnd(entries[i].value)))
            && (key !in Keys(entries) ==> Lookup(after, key) == Lookup(Pairs(existing), key))
  {
    hide Pairs, WriteEnvBlock;
    WrittenPairs(existing, header, title, entries);
    LookupAppend(Unowned(Pairs(existing), Keys(entries)), Trimmed(entries), key);
    LookupUnowned(Pairs(existing), Keys(entries), key);
    LookupEntry(entries, key);
    forall i | 0 <= i < |entries| && entries[i].key == key ensures key in Keys(entries) { assert entries[i] in entries; }
  }

  function Occurrences(pairs: seq<Pair>, key: string): nat {
    if pairs == [] then 0 else (if pairs[0].key == key then 1 else 0) + Occurrences(pairs[1..], key)
  }

  lemma {:induction false} OccurrencesAppend(a: seq<Pair>, b: seq<Pair>, key: string)
    ensures Occurrences(a + b, key) == Occurrences(a, key) + Occurrences(b, key)
  {
    if a == [] {
      assert a + b == b;
    } else {
      assert (a + b)[1..] == a[1..] + b;
      OccurrencesAppend(a[1..], b, key);
    }
  }

  lemma {:induction false} OccurrencesUnowned(pairs: seq<Pair>, owned: set<string>, key: string)
    ensures Occurrences(Unowned(pairs, owned), key) == if key in owned then 0 else Occurrences(pairs, key)
  {
    if pairs != [] {
      OccurrencesUnowned(pairs[1..], owned, key);
      OccurrencesAppend(if pairs[0].key in owned then [] else [pairs[0]], Unowned(pairs[1..], owned), key);
      assert [pairs[0]][1..] == [];
    }
  }

  lemma {:induction false} OccurrencesOfEntries(entries: seq<Pair>, key: string)
    requires FitsOnLines(entries)
    ensures Occurrences(Trimmed(entries), key) == if key in Keys(entries) then 1 else 0
  {
    if entries != [] {
      OccurrencesOfEntries(entries[1..], key);
      assert entries == [entries[0]] + entries[1..];
      assert key in Keys(entries) <==> key == entries[0].key || key in Keys(entries[1..]);
    }
  }

  /** An owned key has exactly one line, however many generations had piled up before. */
  lemma OneLinePerOwnedKey(existing: string, header: string, title: string, entries: seq<Pair>, key: string)
    requires IsHeader(header, title) && FitsOnLines(entries) && key in Keys(entries)
    ensures Occurrences(Pairs(WriteEnvBlock(existing, header, entries)), key) == 1
  {
    hide Pairs, WriteEnvBlock;
    WrittenPairs(existing, header, title, entries);
    OccurrencesAppend(Unowned(Pairs(existing), Keys(entries)), Trimmed(entries), key);
    OccurrencesUnowned(Pairs(existing), Keys(entries), key);
    OccurrencesOfEntries(entries, key);
  }

  // ---------- writing twice ----------

  predicate NoTriple(s: string) {
    forall i | 0 <= i < |s| - 2 :: !(s[i] == '\n' && s[i + 1] == '\n' && s[i + 2] == '\n')
  }

  lemma {:induction false} CollapseNoTriple(s: string)
    ensures NoTriple(Collapse(s))
    ensures s != "" ==> Collapse(s) != "" && Collapse(s)[0] == s[0]
    ensures |s| >= 2 && s[0] == '\n' && s[1] == '\n' ==> |Collapse(s)| >= 2 && Collapse(s)[1] == '\n'
    ensures |Collapse(s)| >= 2 && Collapse(s)[0] == '\n' && Collapse(s)[1] == '\n' ==> |s| >= 2 && s[1] == '\n'
  {
    if s != "" { CollapseNoTriple(s[1..]); }
  }

  lemma {:induction false} CollapseNothing(s: string)
    requires NoTriple(s)
    ensures Collapse(s) == s
  {
    if s != "" {
      assert forall i | 0 <= i < |s[1..]| :: s[1..][i] == s[i + 1];
      CollapseNothing(s[1..]);
    }
  }

  lemma {:induction false} TrimStartIsSuffix(s: string)
    ensures var r := TrimStart(s); |r| <= |s| && r == s[|s| - |r|..] && (r == "" || r[0] != '\n')
  {
    if s != "" && s[0] == '\n' { TrimStartIsSuffix(s[1..]); }
  }

  lemma {:induction false} TrimEndIsPrefix(s: string)
    ensures var r := TrimEnd(s); r <= s && (r == "" || !IsSpace(r[|r| - 1]))
  {
    if s != "" && IsSpace(s[|s| - 1]) { TrimEndIsPrefix(s[..|s| - 1]); }
  }

  predicate Tidy(s: string) {
    NoTriple(s) && (s == "" || (s[0] != '\n' && !IsSpace(s[|s| - 1])))
  }

  lemma KeptIsTidy(existing: string, owned: set<string>)
    ensures Tidy(Kept(existing, owned))
  {
    hide Split, Filter, Join, IsSpace;
    var a := Collapse(Join(Filter(Split(existing), owned)));
    var b := TrimStart(a);
    var c := TrimEnd(b);
    hide Collapse, TrimStart, TrimEnd, NoTriple;
    CollapseNoTriple(Join(Filter(Split(existing), owned)));
    TrimStartIsSuffix(a);
    TrimEndIsPrefix(b);
    NoTripleInside(a, |a| - |b|, c);
    assert c != "" ==> c[0] == b[0];
  }

  lemma NoTripleInside(a: string, k: nat, c: string)
    requires NoTriple(a) && k + |c| <= |a| && c == a[k..k + |c|]
    ensures NoTriple(c)
  {
    forall i | 0 <= i < |c| - 2 ensures !(c[i] == '\n' && c[i + 1] == '\n' && c[i + 2] == '\n') {
      assert c[i] == a[k + i] && c[i + 1] == a[k + i + 1] && c[i + 2] == a[k + i + 2];
    }
  }

  /** A tidy text is what the tidying makes of it with two newlines behind. */
  lemma TidyAgain(s: string)
    requires Tidy(s)
    ensures TrimEnd(TrimStart(Collapse(s + "\n\n"))) == s
  {
    var t := s + "\n\n";
    assert NoTriple(t) by {
      forall i | 0 <= i < |t| - 2 ensures !(t[i] == '\n' && t[i + 1] == '\n' && t[i + 2] == '\n') {
        if i == |s| - 1 { assert t[i] == s[|s| - 1]; } else if i == |s| - 2 { assert t[i + 1] == s[|s| - 1]; }
      }
    }
    CollapseNothing(t);
    if s == "" {
      assert t == "\n\n" && t[1..] == "\n" && "\n"[1..] == "";
      assert TrimStart("\n") == TrimStart("");
      assert TrimStart(t) == "";
    } else {
      assert TrimStart(t) == t;
      assert TrimEnd(s) == s;
      assert TrimEnd(s + "\n") == s;
      assert t[..|t| - 1] == s + "\n" && (s + "\n")[..|s|] == s;
    }
  }

  function DropFlag(owned: set<string>): string -> seq<Pair> {
    line => if Drops(owned, line) then [Pair("", "")] else []
  }

  lemma MarkerBack(line: string, c: char)
    requires IsSpace(c)
    ensures IsMarker(line + [c]) == IsMarker(line)
  {
    var last := |MARKER| - 1;
    assert !IsSpace(MARKER[last]);
    if IsMarker(line + [c]) { assert (line + [c])[last] == MARKER[last]; }
  }

  lemma DropFlagIgnoresBlanks(owned: set<string>)
    ensures IgnoresBlanks(DropFlag(owned))
  {
    assert Parse("").None?;
    forall line, c: char | IsSpace(c) ensures Drops(owned, line + [c]) == Drops(owned, line) {
      ParseBack(line, c);
      MarkerBack(line, c);
    }
  }

  lemma {:induction false} NoFlagNoDrop(lines: seq<string>, owned: set<string>)
    requires OfLines(lines, DropFlag(owned)) == []
    ensures forall line <- lines :: !Drops(owned, line)
  {
    if lines != [] {
      assert DropFlag(owned)(lines[0]) == [];
      NoFlagNoDrop(lines[1..], owned);
    }
  }

  lemma {:induction false} NoFlags(lines: seq<string>)
    ensures OfLines(lines, line => []) == []
  {
    if lines != [] { NoFlags(lines[1..]); }
  }

  /** Nothing in what was kept would be dropped by another run. */
  lemma KeptStaysKept(existing: string, owned: set<string>)
    ensures Filter(Split(Kept(existing, owned)), owned) == Split(Kept(existing, owned))
  {
    DropFlagIgnoresBlanks(owned);
    KeptReads(existing, owned, DropFlag(owned), line => []);
    NoFlags(Split(existing));
    NoFlagNoDrop(Split(Kept(existing, owned)), owned);
    FilterMembers(Split(Kept(existing, owned)), owned);
  }

  lemma {:induction false} FilterAppend(a: seq<string>, b: seq<string>, owned: set<string>)
    ensures Filter(a + b, owned) == Filter(a, owned) + Filter(b, owned)
  {
    if a == [] {
      assert a + b == b;
    } else {
      assert (a + b)[1..] == a[1..] + b;
      FilterAppend(a[1..], b, owned);
    }
  }

  lemma {:induction false} FilterNothing(lines: seq<string>, owned: set<string>)
    requires forall i | 0 <= i < |lines| :: Drops(owned, lines[i])
    ensures Filter(lines, owned) == []
  {
    if lines != [] { FilterNothing(lines[1..], owned); }
  }

  lemma {:induction false} JoinSplit(s: string)
    ensures Join(Split(s)) == s
  {
    if s != "" {
      JoinSplit(s[1..]);
      var rest := Split(s[1..]);
      assert Split(s)[1..] == if s[0] == '\n' then rest else rest[1..];
    }
  }

  lemma {:induction false} JoinPlus(lines: seq<string>, more: string)
    requires lines != []
    ensures Join(lines + [more]) == Join(lines) + "\n" + more
  {
    if |lines| == 1 {
      assert (lines + [more])[1..] == [more];
    } else {
      assert (lines + [more])[1..] == lines[1..] + [more];
      JoinPlus(lines[1..], more);
    }
  }

  /** The lines of a written file. */
  lemma WrittenLines(kept: string, header: string, title: string, entries: seq<Pair>)
    requires IsHeader(header, title) && FitsOnLines(entries)
    ensures Split(kept + "\n" + Join([header] + EntryLines(entries)) + "\n")
         == Split(kept) + ([""] + (([MARKER + title] + EntryLines(entries)) + [""]))
  {
    hide Split, Join, EntryLines;
    var block := Join([header] + EntryLines(entries));
    BlockLines(header, title, entries);
    SplitText(kept, block + "\n" + "");
    SplitText(block, "");
    SplitLine("", "");
    assert kept + "\n" + block + "\n" == kept + "\n" + (block + "\n" + "");
    assert ["", MARKER + title] == [""] + [MARKER + title];
  }

  lemma FilterAround(a: seq<string>, middle: seq<string>, owned: set<string>)
    requires Filter(a, owned) == a && Filter(middle, owned) == []
    ensures Filter(a + ([""] + (middle + [""])), owned) == a + [""] + [""]
  {
    hide Filter;
    FilterAppend(a, [""] + (middle + [""]), owned);
    FilterAppend([""], middle + [""], owned);
    FilterAppend(middle, [""], owned);
    FilterBlank(owned);
    assert [] + [""] == [""];
  }

  /** Which of them a second run keeps. */
  lemma SecondFilter(kept: string, header: string, title: string, entries: seq<Pair>)
    requires IsHeader(header, title) && FitsOnLines(entries)
    requires Filter(Split(kept), Keys(entries)) == Split(kept)
    ensures Filter(Split(kept + "\n" + Join([header] + EntryLines(entries)) + "\n"), Keys(entries)) == Split(kept) + [""] + [""]
  {
    hide Split, Join, EntryLines, Filter, Drops, Keys;
    WrittenLines(kept, header, title, entries);
    BlockDrops(title, entries);
    FilterNothing([MARKER + title] + EntryLines(entries), Keys(entries));
    FilterAround(Split(kept), [MARKER + title] + EntryLines(entries), Keys(entries));
  }

  lemma FilterBlank(owned: set<string>)
    ensures Filter([""], owned) == [""]
  {
    assert Parse("").None? && !IsMarker("");
    assert [""][1..] == [];
  }

  lemma BlockDrops(title: string, entries: seq<Pair>)
    requires FitsOnLines(entries)
    ensures var all := [MARKER + title] + EntryLines(entries); forall i | 0 <= i < |all| :: Drops(Keys(entries), all[i])
  {
    EntryLinesRead(entries);
    var all := [MARKER + title] + EntryLines(entries);
    forall i | 0 <= i < |all| ensures Drops(Keys(entries), all[i]) {
      if i > 0 {
        assert all[i] == EntryLines(entries)[i - 1];
        assert entries[i - 1] in entries;
      }
    }
  }

  /** The same block written again leaves the same file. */
  lemma WritingTwiceIsWritingOnce(existing: string, header: string, title: string, entries: seq<Pair>)
    requires IsHeader(header, title) && FitsOnLines(entries)
    ensures var once := WriteEnvBlock(existing, header, entries);
            WriteEnvBlock(once, header, entries) == once
  {
    hide Split, Join, EntryLines, Filter, Drops, Collapse, TrimStart, TrimEnd;
    var owned := Keys(entries);
    var kept := Kept(existing, owned);
    KeptStaysKept(existing, owned);
    SecondFilter(kept, header, title, entries);
    JoinPlus(Split(kept), "");
    JoinPlus(Split(kept) + [""], "");
    JoinSplit(kept);
    assert kept + "\n" + "" + "\n" + "" == kept + "\n\n";
    KeptIsTidy(existing, owned);
    TidyAgain(kept);
  }
}
