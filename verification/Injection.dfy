/**
 The active-memory block put before a user's text, and the stripper that takes it out again
 (extensions/active-memory/prompt.ts, extensions/active-memory/query.ts).

 Joining the kept lines and collapsing their white space is the parameter `finish`.
 */
module Injection {
  import opened Prelude
  import opened Text

  /** The line that announces a block and the two tag lines around it. */
  datatype Tags = Tags(header: string, open: string, close: string)

  const TAGS := Tags("Context:", "<active_memory_plugin>", "</active_memory_plugin>")

  /** A line of its own that trimming leaves alone. */
  predicate IsLine(s: string) {
    s != "" && !IsSpace(s[0]) && !IsSpace(s[|s| - 1]) && '\n' !in s
  }

  ghost predicate Sound(tags: Tags) {
    && IsLine(tags.header) && IsLine(tags.open) && IsLine(tags.close) && tags.close[0] == '<'
  }

  lemma {:induction false} TagsAreSound()
    ensures Sound(TAGS)
  {
    assert IsLine(TAGS.header);
    assert IsLine(TAGS.open);
    assert IsLine(TAGS.close);
  }

  // ---------------------------------------------------------------- splitting into lines

  function SplitLines(s: string): (lines: seq<string>)
    ensures lines != []
  {
    if s == "" then [""]
    else
      var rest := SplitLines(s[1..]);
      if s[0] == '\n' then [""] + rest else [[s[0]] + rest[0]] + rest[1..]
  }

  lemma {:induction false} SplitAtNewline(a: string, b: string)
    ensures SplitLines(a + "\n" + b) == SplitLines(a) + SplitLines(b)
  {
    if a == "" {
      assert "" + "\n" + b == "\n" + b;
      assert ("\n" + b)[1..] == b;
    } else {
      assert (a + "\n" + b)[1..] == a[1..] + "\n" + b;
      SplitAtNewline(a[1..], b);
    }
  }

  lemma {:induction false} SplitWithoutNewline(s: string)
    requires '\n' !in s
    ensures SplitLines(s) == [s]
  {
    if s != "" {
      SplitWithoutNewline(s[1..]);
      assert [s[0]] + s[1..] == s;
    }
  }

  lemma {:induction false} LinesHoldTheText(s: string, k: nat, c: char)
    requires k < |SplitLines(s)| && c in SplitLines(s)[k]
    ensures c in s
  {
    if s != "" {
      var rest := SplitLines(s[1..]);
      if s[0] == '\n' {
        assert SplitLines(s)[k] == if k == 0 then "" else rest[k - 1];
        LinesHoldTheText(s[1..], k - 1, c);
      } else if k > 0 || c != s[0] {
        assert SplitLines(s)[k] == if k == 0 then [s[0]] + rest[0] else rest[k];
        LinesHoldTheText(s[1..], k, c);
      }
    }
  }

  // ---------------------------------------------------------------- escaping

  function Replace(s: string, c: char, with: string): string {
    if s == "" then "" else (if s[0] == c then with else [s[0]]) + Replace(s[1..], c, with)
  }

  datatype Replacement = Replacement(of: char, with: string)

  /** The replacements of the XML escaper, in the order in which it makes them. */
  const XML := [
    Replacement('&', "&amp;"), Replacement('<', "&lt;"), Replacement('>', "&gt;"),
    Replacement('"', "&quot;"), Replacement('\'', "&apos;")
  ]

  function ReplaceEntry(s: string, r: Replacement): string {
    Replace(s, r.of, r.with)
  }

  /** The first `n` replacements, one after the other over the whole text. */
  function InTurn(replace: (string, Replacement) -> string, table: seq<Replacement>, n: nat, s: string): string
    requires n <= |table|
  {
    if n == 0 then s else replace(InTurn(replace, table, n - 1, s), table[n - 1])
  }

  function EscapeXml(s: string): string {
    InTurn(ReplaceEntry, XML, |XML|, s)
  }

  /** One character's escape: its entry in the table, if it has one. */
  function EscapeChar(table: seq<Replacement>, n: nat, c: char): string
    requires n <= |table|
  {
    if n == 0 then [c] else if table[n - 1].of == c then table[n - 1].with else EscapeChar(table, n - 1, c)
  }

  function EscapeEach(table: seq<Replacement>, s: string): string {
    if s == "" then "" else EscapeChar(table, |table|, s[0]) + EscapeEach(table, s[1..])
  }

  /** Entry `j` cannot touch what an earlier entry wrote or replaced. */
  predicate ComesAfter(table: seq<Replacement>, i: nat, j: nat) {
    i < j < |table| ==> table[j].of !in table[i].with && table[j].of != table[i].of
  }

  ghost predicate InOrder(table: seq<Replacement>) {
    forall i: nat, j: nat :: ComesAfter(table, i, j)
  }

  lemma {:induction false} ReplaceConcat(a: string, b: string, c: char, with: string)
    ensures Replace(a + b, c, with) == Replace(a, c, with) + Replace(b, c, with)
  {
    if a == "" {
      assert "" + b == b;
    } else {
      assert (a + b)[1..] == a[1..] + b;
      ReplaceConcat(a[1..], b, c, with);
    }
  }

  lemma {:induction false} ReplaceAbsent(s: string, c: char, with: string)
    requires c !in s
    ensures Replace(s, c, with) == s
  {
    if s != "" {
      ReplaceAbsent(s[1..], c, with);
    }
  }

  lemma {:induction false} ReplaceOne(d: char, c: char, with: string)
    ensures Replace([d], c, with) == if d == c then with else [d]
  {
    assert [d][1..] == "";
  }

  ghost predicate Distributes(replace: (string, Replacement) -> string) {
    forall a, b, r :: replace(a + b, r) == replace(a, r) + replace(b, r)
  }

  lemma {:induction false} ReplaceDistributes()
    ensures Distributes(ReplaceEntry)
  {
    forall a, b, r ensures ReplaceEntry(a + b, r) == ReplaceEntry(a, r) + ReplaceEntry(b, r) {
      ReplaceConcat(a, b, r.of, r.with);
    }
  }

  lemma {:induction false} InTurnConcat(
      replace: (string, Replacement) -> string, table: seq<Replacement>, n: nat, a: string, b: string)
    requires n <= |table| && Distributes(replace)
    ensures InTurn(replace, table, n, a + b) == InTurn(replace, table, n, a) + InTurn(replace, table, n, b)
  {
    if n > 0 {
      InTurnConcat(replace, table, n - 1, a, b);
    }
  }

  lemma {:induction false} EscapeCharIsInTable(table: seq<Replacement>, n: nat, c: char)
    requires n <= |table|
    ensures EscapeChar(table, n, c) == [c] || exists i: nat ::
        i < n && table[i].of == c && table[i].with == EscapeChar(table, n, c)
  {
    if n > 0 && table[n - 1].of != c {
      EscapeCharIsInTable(table, n - 1, c);
    }
  }

  /** No later replacement touches what an earlier one wrote. */
  lemma {:induction false} EscapeOne(table: seq<Replacement>, n: nat, c: char)
    requires n <= |table| && InOrder(table)
    ensures InTurn(ReplaceEntry, table, n, [c]) == EscapeChar(table, n, c)
  {
    if n > 0 {
      EscapeOne(table, n - 1, c);
      var older, next := EscapeChar(table, n - 1, c), table[n - 1];
      EscapeCharIsInTable(table, n - 1, c);
      if older == [c] {
        ReplaceOne(c, next.of, next.with);
      } else {
        var i: nat :| i < n - 1 && table[i].of == c && table[i].with == older;
        assert ComesAfter(table, i, n - 1);
        ReplaceAbsent(older, next.of, next.with);
      }
    }
  }

  lemma {:induction false} InTurnIsOneMap(table: seq<Replacement>, s: string)
    requires InOrder(table)
    ensures InTurn(ReplaceEntry, table, |table|, s) == EscapeEach(table, s)
  {
    if s == "" {
      InTurnOfNothing(table, |table|);
    } else {
      assert s == [s[0]] + s[1..];
      ReplaceDistributes();
      InTurnConcat(ReplaceEntry, table, |table|, [s[0]], s[1..]);
      EscapeOne(table, |table|, s[0]);
      InTurnIsOneMap(table, s[1..]);
    }
  }

  lemma {:induction false} InTurnOfNothing(table: seq<Replacement>, n: nat)
    requires n <= |table|
    ensures InTurn(ReplaceEntry, table, n, "") == ""
  {
    if n > 0 {
      InTurnOfNothing(table, n - 1);
    }
  }

  /** A character of the table that no entry writes. */
  ghost predicate Removed(table: seq<Replacement>, c: char) {
    && (exists i :: 0 <= i < |table| && table[i].of == c)
    && (forall i :: 0 <= i < |table| ==> c !in table[i].with)
  }

  lemma {:induction false} RemovedFromChar(table: seq<Replacement>, n: nat, c: char, d: char)
    requires n <= |table| && (forall i :: 0 <= i < n ==> c !in table[i].with)
    requires d == c ==> exists i :: 0 <= i < n && table[i].of == c
    ensures c !in EscapeChar(table, n, d)
  {
    if n > 0 && table[n - 1].of != d {
      RemovedFromChar(table, n - 1, c, d);
    }
  }

  lemma {:induction false} RemovedFromText(table: seq<Replacement>, c: char, s: string)
    requires Removed(table, c)
    ensures c !in EscapeEach(table, s)
  {
    if s != "" {
      RemovedFromChar(table, |table|, c, s[0]);
      RemovedFromText(table, c, s[1..]);
    }
  }

  lemma {:induction false} XmlInOrder()
    ensures InOrder(XML)
  {
    forall i: nat, j: nat ensures ComesAfter(XML, i, j) {
      if i < j < |XML| {
        assert XML[i].with ==
          if i == 0 then "&amp;" else if i == 1 then "&lt;" else if i == 2 then "&gt;" else "&quot;";
      }
    }
  }

  lemma {:induction false} XmlRemovesAngles()
    ensures Removed(XML, '<')
  {
    assert XML[1].of == '<';
    forall i | 0 <= i < |XML| ensures '<' !in XML[i].with {
      assert XML[i].with ==
        if i == 0 then "&amp;" else if i == 1 then "&lt;" else if i == 2 then "&gt;"
        else if i == 3 then "&quot;" else "&apos;";
    }
  }

  /** Five replacements in sequence are one character map, and leave no opening angle bracket. */
  lemma {:induction false} EscapeIsOneMap(s: string)
    ensures EscapeXml(s) == EscapeEach(XML, s)
    ensures '<' !in EscapeXml(s)
  {
    XmlInOrder();
    XmlRemovesAngles();
    InTurnIsOneMap(XML, s);
    RemovedFromText(XML, '<', s);
  }

  // ---------------------------------------------------------------- the injected block

  function BuildMetadata(tags: Tags, summary: string): Option<string> {
    if summary == "" then None else Some(tags.open + "\n" + EscapeXml(summary) + "\n" + tags.close)
  }

  function BuildPromptPrefix(tags: Tags, summary: string): Option<string> {
    var metadata := BuildMetadata(tags, summary);
    if metadata.None? then None else Some(tags.header + "\n" + metadata.value)
  }

  // ---------------------------------------------------------------- the stripper

  function Each(trim: string -> string, lines: seq<string>): (r: seq<string>)
    ensures |r| == |lines|
  {
    seq(|lines|, i requires 0 <= i < |lines| => trim(lines[i]))
  }

  function Trimmed(lines: seq<string>): (r: seq<string>)
    ensures |r| == |lines|
  {
    Each(Trim, lines)
  }

  /** The first closing tag from `k` on, or the number of lines. */
  function CloseFrom(tags: Tags, lines: seq<string>, k: nat): (r: nat)
    requires k <= |lines|
    ensures k <= r <= |lines|
    ensures r < |lines| ==> lines[r] == tags.close
    ensures forall j :: k <= j < r ==> lines[j] != tags.close
    decreases |lines| - k
  {
    if k == |lines| || lines[k] == tags.close then k else CloseFrom(tags, lines, k + 1)
  }

  /** A whole injected block starts here. */
  predicate BlockAt(tags: Tags, lines: seq<string>, k: nat) {
    && k + 1 < |lines| && lines[k] == tags.header && lines[k + 1] == tags.open
    && CloseFrom(tags, lines, k + 2) < |lines|
  }

  /** What is kept of the trimmed lines from `k` on. */
  function Kept(tags: Tags, lines: seq<string>, k: nat): seq<string>
    requires k <= |lines|
    decreases |lines| - k
  {
    if k == |lines| then []
    else if BlockAt(tags, lines, k) then Kept(tags, lines, CloseFrom(tags, lines, k + 2) + 1)
    else (if lines[k] == "" then [] else [lines[k]]) + Kept(tags, lines, k + 1)
  }

  /** The kept lines, put together by `finish`. */
  function Strip(finish: seq<string> -> string, tags: Tags, text: string): string {
    finish(Kept(tags, Trimmed(SplitLines(text)), 0))
  }

  method FindClose(trim: string -> string, tags: Tags, lines: seq<string>, from: nat) returns (closeIndex: nat)
    requires from <= |lines|
    ensures closeIndex == CloseFrom(tags, Each(trim, lines), from)
  {
    closeIndex := from;
    while closeIndex < |lines| && trim(lines[closeIndex]) != tags.close
      invariant from <= closeIndex <= |lines|
      invariant forall j :: from <= j < closeIndex ==> Each(trim, lines)[j] != tags.close
    {
      closeIndex := closeIndex + 1;
    }
    CloseIsFirst(tags, Each(trim, lines), from, closeIndex);
  }

  lemma {:induction false} KeptStep(tags: Tags, lines: seq<string>, k: nat)
    requires k < |lines|
    ensures BlockAt(tags, lines, k) ==> Kept(tags, lines, k) == Kept(tags, lines, CloseFrom(tags, lines, k + 2) + 1)
    ensures !BlockAt(tags, lines, k) ==>
        Kept(tags, lines, k) == (if lines[k] == "" then [] else [lines[k]]) + Kept(tags, lines, k + 1)
  {
  }

  lemma {:induction false} CloseIsFirst(tags: Tags, lines: seq<string>, k: nat, c: nat)
    requires k <= c <= |lines| && (c < |lines| ==> lines[c] == tags.close)
    requires forall j :: k <= j < c ==> lines[j] != tags.close
    ensures CloseFrom(tags, lines, k) == c
  {
  }

  /** One turn of the loop: what has been kept, and where it goes on. */
  ghost predicate Progress(tags: Tags, lines: seq<string>, kept: seq<string>, k: nat) {
    k <= |lines| && kept + Kept(tags, lines, k) == Kept(tags, lines, 0)
  }

  lemma {:induction false} SkipBlock(tags: Tags, lines: seq<string>, kept: seq<string>, k: nat)
    requires Progress(tags, lines, kept, k) && BlockAt(tags, lines, k)
    ensures Progress(tags, lines, kept, CloseFrom(tags, lines, k + 2) + 1)
  {
    KeptStep(tags, lines, k);
  }

  lemma {:induction false} KeepLine(tags: Tags, lines: seq<string>, kept: seq<string>, k: nat)
    requires Progress(tags, lines, kept, k) && k < |lines| && !BlockAt(tags, lines, k)
    ensures Progress(tags, lines, if lines[k] == "" then kept else kept + [lines[k]], k + 1)
  {
    KeptStep(tags, lines, k);
    Keep(kept, lines[k], Kept(tags, lines, k + 1));
  }

  lemma {:induction false} Keep(kept: seq<string>, line: string, rest: seq<string>)
    ensures kept + ((if line == "" then [] else [line]) + rest) == (if line == "" then kept else kept + [line]) + rest
  {
  }

  method CleanLines(trim: string -> string, tags: Tags, lines: seq<string>) returns (cleanedLines: seq<string>)
    ensures cleanedLines == Kept(tags, Each(trim, lines), 0)
  {
    ghost var trimmed := Each(trim, lines);
    cleanedLines := [];
    var index := 0;
    assert cleanedLines + Kept(tags, trimmed, 0) == Kept(tags, trimmed, 0);
    while index < |lines|
      invariant Progress(tags, trimmed, cleanedLines, index)
      decreases |lines| - index
    {
      var line := trim(lines[index]);
      var closeIndex := |lines|;
      if line == tags.header && index + 1 < |lines| && trim(lines[index + 1]) == tags.open {
        closeIndex := FindClose(trim, tags, lines, index + 2);
      }
      if closeIndex < |lines| {
        SkipBlock(tags, trimmed, cleanedLines, index);
        index := closeIndex + 1;
      } else {
        KeepLine(tags, trimmed, cleanedLines, index);
        cleanedLines := if line == "" then cleanedLines else cleanedLines + [line];
        index := index + 1;
      }
    }
    assert cleanedLines + [] == cleanedLines;
  }

  method StripInjectedActiveMemoryPrefixOnly(
      finish: seq<string> -> string, tags: Tags, text: string) returns (r: string)
    ensures r == Strip(finish, tags, text)
  {
    var cleanedLines := CleanLines(Trim, tags, SplitLines(text));
    r := finish(cleanedLines);
  }

  // ---------------------------------------------------------------- stripping undoes injecting

  /** `b` is what `a` is from `n` on. */
  ghost predicate IsSuffix(a: seq<string>, n: nat, b: seq<string>) {
    |a| == n + |b| && forall k :: 0 <= k < |b| ==> b[k] == a[n + k]
  }

  lemma {:induction false} CloseOfSuffix(tags: Tags, a: seq<string>, n: nat, b: seq<string>, k: nat)
    requires IsSuffix(a, n, b) && k <= |b|
    ensures CloseFrom(tags, a, n + k) == n + CloseFrom(tags, b, k)
  {
    var c := CloseFrom(tags, b, k);
    forall j | n + k <= j < n + c ensures a[j] != tags.close {
      assert a[j] == b[j - n];
    }
    CloseIsFirst(tags, a, n + k, n + c);
  }

  lemma {:induction false} BlockOfSuffix(tags: Tags, a: seq<string>, n: nat, b: seq<string>, k: nat)
    requires IsSuffix(a, n, b) && k < |b|
    ensures BlockAt(tags, a, n + k) <==> BlockAt(tags, b, k)
    ensures BlockAt(tags, b, k) ==> CloseFrom(tags, a, n + k + 2) == n + CloseFrom(tags, b, k + 2)
  {
    if k + 1 < |b| {
      CloseOfSuffix(tags, a, n, b, k + 2);
      assert b[k + 1] == a[n + (k + 1)];
    }
  }

  lemma {:induction false} LineOfSuffix(tags: Tags, a: seq<string>, n: nat, b: seq<string>, k: nat)
    requires n + k < |a| && k < |b| && a[n + k] == b[k]
    requires !BlockAt(tags, a, n + k) && !BlockAt(tags, b, k)
    requires Kept(tags, a, n + k + 1) == Kept(tags, b, k + 1)
    ensures Kept(tags, a, n + k) == Kept(tags, b, k)
  {
    KeptStep(tags, a, n + k);
    KeptStep(tags, b, k);
  }

  lemma {:induction false} BlockOfBoth(tags: Tags, a: seq<string>, n: nat, b: seq<string>, k: nat, c: nat)
    requires n + k < |a| && k < |b| && c <= |b| && n + c <= |a|
    requires BlockAt(tags, a, n + k) && BlockAt(tags, b, k)
    requires CloseFrom(tags, b, k + 2) + 1 == c && CloseFrom(tags, a, n + k + 2) + 1 == n + c
    requires Kept(tags, a, n + c) == Kept(tags, b, c)
    ensures Kept(tags, a, n + k) == Kept(tags, b, k)
  {
    KeptStep(tags, a, n + k);
    KeptStep(tags, b, k);
  }

  /** What is kept from a line on does not depend on what came before. */
  lemma {:induction false} KeptOfSuffix(tags: Tags, a: seq<string>, n: nat, b: seq<string>, k: nat)
    requires IsSuffix(a, n, b) && k <= |b|
    ensures Kept(tags, a, n + k) == Kept(tags, b, k)
    decreases |b| - k
  {
    if k < |b| {
      BlockOfSuffix(tags, a, n, b, k);
      if BlockAt(tags, b, k) {
        var c := CloseFrom(tags, b, k + 2) + 1;
        KeptOfSuffix(tags, a, n, b, c);
        BlockOfBoth(tags, a, n, b, k, c);
      } else {
        KeptOfSuffix(tags, a, n, b, k + 1);
        LineOfSuffix(tags, a, n, b, k);
      }
    }
  }

  lemma {:induction false} BlockIsTakenOut(tags: Tags, body: seq<string>, rest: seq<string>)
    requires forall j :: 0 <= j < |body| ==> body[j] != tags.close
    ensures Kept(tags, [tags.header, tags.open] + body + [tags.close] + rest, 0) == Kept(tags, rest, 0)
  {
    var lines := [tags.header, tags.open] + body + [tags.close] + rest;
    var c := 2 + |body|;
    CloseIsFirst(tags, lines, 2, c);
    KeptStep(tags, lines, 0);
    KeptOfSuffix(tags, lines, c + 1, rest, 0);
  }

  /** No line of an escaped summary can pass for a tag. */
  lemma {:induction false} EscapedLinesAreNoTags(tags: Tags, summary: string, k: nat)
    requires Sound(tags) && k < |SplitLines(EscapeXml(summary))|
    ensures Trimmed(SplitLines(EscapeXml(summary)))[k] != tags.close
  {
    var lines := SplitLines(EscapeXml(summary));
    if Trim(lines[k]) == tags.close {
      assert '<' in Trim(lines[k]);
      LinesHoldTheText(EscapeXml(summary), k, '<');
    }
    EscapeIsOneMap(summary);
  }

  lemma {:induction false} InjectedLines(tags: Tags, escaped: string, text: string)
    requires Sound(tags)
    ensures SplitLines(tags.header + "\n" + (tags.open + "\n" + escaped + "\n" + tags.close) + "\n" + text) ==
            [tags.header, tags.open] + SplitLines(escaped) + [tags.close] + SplitLines(text)
  {
    var tail := tags.close + "\n" + text;
    SplitAtNewline(tags.close, text);
    SplitWithoutNewline(tags.close);
    SplitAtNewline(escaped, tail);
    SplitAtNewline(tags.open, escaped + "\n" + tail);
    SplitWithoutNewline(tags.open);
    SplitAtNewline(tags.header, tags.open + "\n" + (escaped + "\n" + tail));
    SplitWithoutNewline(tags.header);
    Regroup(tags.header, tags.open, escaped, tags.close, text);
    RegroupLines(tags.header, tags.open, SplitLines(escaped), tags.close, SplitLines(text));
  }

  lemma {:induction false} Regroup(h: string, o: string, e: string, c: string, t: string)
    ensures h + "\n" + (o + "\n" + e + "\n" + c) + "\n" + t == h + "\n" + (o + "\n" + (e + "\n" + (c + "\n" + t)))
  {
  }

  lemma {:induction false} RegroupLines(h: string, o: string, e: seq<string>, c: string, t: seq<string>)
    ensures [h] + ([o] + (e + ([c] + t))) == [h, o] + e + [c] + t
  {
  }

  lemma {:induction false} TrimmedConcat(a: seq<string>, b: seq<string>)
    ensures Trimmed(a + b) == Trimmed(a) + Trimmed(b)
  {
  }

  lemma {:induction false} EachOfOne(trim: string -> string, line: string)
    ensures Each(trim, [line]) == [trim(line)]
  {
  }

  lemma {:induction false} TrimmedLine(line: string)
    requires IsLine(line)
    ensures Trimmed([line]) == [line]
  {
    EachOfOne(Trim, line);
    TrimKeeps(line);
  }

  lemma {:induction false} TrimmedBlock(tags: Tags, body: seq<string>, rest: seq<string>)
    requires Sound(tags)
    ensures Trimmed([tags.header, tags.open] + body + [tags.close] + rest) ==
            [tags.header, tags.open] + Trimmed(body) + [tags.close] + Trimmed(rest)
  {
    var head := [tags.header, tags.open];
    assert head == [tags.header] + [tags.open];
    TrimmedConcat([tags.header], [tags.open]);
    TrimmedLine(tags.header);
    TrimmedLine(tags.open);
    TrimmedLine(tags.close);
    TrimmedConcat(head, body);
    TrimmedConcat(head + body, [tags.close]);
    TrimmedConcat(head + body + [tags.close], rest);
  }

  lemma {:induction false} StripUndoesInjectionOf(
      finish: seq<string> -> string, tags: Tags, summary: string, text: string)
    requires Sound(tags) && summary != ""
    ensures Strip(finish, tags, BuildPromptPrefix(tags, summary).value + "\n" + text) == Strip(finish, tags, text)
  {
    var body, rest := SplitLines(EscapeXml(summary)), SplitLines(text);
    InjectedLines(tags, EscapeXml(summary), text);
    TrimmedBlock(tags, body, rest);
    forall j | 0 <= j < |body| ensures Trimmed(body)[j] != tags.close {
      EscapedLinesAreNoTags(tags, summary, j);
    }
    BlockIsTakenOut(tags, Trimmed(body), Trimmed(rest));
  }

  /**
   For every summary, of any number of lines and with any tags in it, and every text:
   stripping takes the block out, however the kept lines are put together.
   */
  lemma {:induction false} StripUndoesInjection(finish: seq<string> -> string, summary: string, text: string)
    requires summary != ""
    ensures Strip(finish, TAGS, BuildPromptPrefix(TAGS, summary).value + "\n" + text) == Strip(finish, TAGS, text)
  {
    TagsAreSound();
    StripUndoesInjectionOf(finish, TAGS, summary, text);
  }

  /** Blocks stacked in front of a text. */
  function Stacked(tags: Tags, summaries: seq<string>, text: string): string {
    if summaries == [] then text
    else
      match BuildPromptPrefix(tags, summaries[0])
      case None => Stacked(tags, summaries[1..], text)
      case Some(prefix) => prefix + "\n" + Stacked(tags, summaries[1..], text)
  }

  lemma {:induction false} StripUndoesStackedInjectionsOf(
      finish: seq<string> -> string, tags: Tags, summaries: seq<string>, text: string)
    requires Sound(tags)
    ensures Strip(finish, tags, Stacked(tags, summaries, text)) == Strip(finish, tags, text)
  {
    if summaries != [] {
      StripUndoesStackedInjectionsOf(finish, tags, summaries[1..], text);
      if summaries[0] != "" {
        StripUndoesInjectionOf(finish, tags, summaries[0], Stacked(tags, summaries[1..], text));
      }
    }
  }

  /** Any number of stacked blocks goes as well. */
  lemma {:induction false} StripUndoesStackedInjections(
      finish: seq<string> -> string, summaries: seq<string>, text: string)
    ensures Strip(finish, TAGS, Stacked(TAGS, summaries, text)) == Strip(finish, TAGS, text)
  {
    TagsAreSound();
    StripUndoesStackedInjectionsOf(finish, TAGS, summaries, text);
  }

  // ---------------------------------------------------------------- nothing else is taken out

  function NonBlank(lines: seq<string>, k: nat): seq<string>
    requires k <= |lines|
    decreases |lines| - k
  {
    if k == |lines| then []
    else (if lines[k] == "" then [] else [lines[k]]) + NonBlank(lines, k + 1)
  }

  /** Without a whole block every line that is not blank stays, whatever headers or tags are in the text. */
  lemma {:induction false} OnlyWholeBlocksGo(tags: Tags, lines: seq<string>, k: nat)
    requires k <= |lines|
    requires forall j: nat :: k <= j < |lines| ==> !BlockAt(tags, lines, j)
    ensures Kept(tags, lines, k) == NonBlank(lines, k)
    decreases |lines| - k
  {
    if k < |lines| {
      OnlyWholeBlocksGo(tags, lines, k + 1);
    }
  }

  /** The lines from `k` up to `b` that are not blank. */
  function NonBlankTo(lines: seq<string>, k: nat, b: nat): seq<string>
    requires k <= b <= |lines|
    decreases b - k
  {
    if k == b then [] else (if lines[k] == "" then [] else [lines[k]]) + NonBlankTo(lines, k + 1, b)
  }

  /** A whole block: the header, the opening tag, and a closing tag, the first one, at `close`. */
  ghost predicate IsBlock(tags: Tags, lines: seq<string>, b: nat, close: nat) {
    && b + 2 <= close < |lines| && lines[b] == tags.header && lines[b + 1] == tags.open && lines[close] == tags.close
    && forall j :: b + 2 <= j < close ==> lines[j] != tags.close
  }

  lemma {:induction false} BlocksAreWhole(tags: Tags, lines: seq<string>, b: nat)
    requires b <= |lines|
    ensures BlockAt(tags, lines, b) <==> exists close: nat :: IsBlock(tags, lines, b, close)
    ensures forall close: nat :: IsBlock(tags, lines, b, close) ==> close == CloseFrom(tags, lines, b + 2)
  {
    if BlockAt(tags, lines, b) {
      assert IsBlock(tags, lines, b, CloseFrom(tags, lines, b + 2));
    }
    forall close: nat | IsBlock(tags, lines, b, close) ensures close == CloseFrom(tags, lines, b + 2) {
      CloseIsFirst(tags, lines, b + 2, close);
    }
  }

  lemma {:induction false} KeptUpTo(tags: Tags, lines: seq<string>, k: nat, b: nat)
    requires k <= b <= |lines| && forall j: nat :: k <= j < b ==> !BlockAt(tags, lines, j)
    ensures Kept(tags, lines, k) == NonBlankTo(lines, k, b) + Kept(tags, lines, b)
    decreases b - k
  {
    if k < b {
      KeptUpTo(tags, lines, k + 1, b);
      KeptStep(tags, lines, k);
      Assoc(if lines[k] == "" then [] else [lines[k]], NonBlankTo(lines, k + 1, b), Kept(tags, lines, b));
    } else {
      assert [] + Kept(tags, lines, b) == Kept(tags, lines, b);
    }
  }

  /**
   The first whole block goes, wherever it begins; the lines before it stay, and what follows
   its closing tag is stripped in turn.
   */
  lemma {:induction false} FirstBlockGoes(tags: Tags, lines: seq<string>, k: nat, b: nat, close: nat)
    requires k <= b && IsBlock(tags, lines, b, close)
    requires forall j: nat, c: nat :: k <= j < b ==> !IsBlock(tags, lines, j, c)
    ensures Kept(tags, lines, k) == NonBlankTo(lines, k, b) + Kept(tags, lines, close + 1)
  {
    forall j: nat | k <= j < b ensures !BlockAt(tags, lines, j) {
      BlocksAreWhole(tags, lines, j);
    }
    BlocksAreWhole(tags, lines, b);
    KeptUpTo(tags, lines, k, b);
    KeptStep(tags, lines, b);
  }

  // ---------------------------------------------------------------- what is injected says the summary

  /** Reading XML text: the five entities stand for their characters. */
  function Unescape(s: string): string
    decreases |s|
  {
    if s == "" then ""
    else if "&amp;" <= s then "&" + Unescape(s[5..])
    else if "&lt;" <= s then "<" + Unescape(s[4..])
    else if "&gt;" <= s then ">" + Unescape(s[4..])
    else if "&quot;" <= s then "\"" + Unescape(s[6..])
    else if "&apos;" <= s then "'" + Unescape(s[6..])
    else [s[0]] + Unescape(s[1..])
  }

  lemma {:induction false} XmlEntities(c: char)
    ensures EscapeChar(XML, |XML|, c) ==
            if c == '&' then "&amp;" else if c == '<' then "&lt;" else if c == '>' then "&gt;"
            else if c == '"' then "&quot;" else if c == '\'' then "&apos;" else [c]
  {
    assert XML[0] == Replacement('&', "&amp;") && XML[1] == Replacement('<', "&lt;");
    assert XML[2] == Replacement('>', "&gt;") && XML[3] == Replacement('"', "&quot;");
    assert XML[4] == Replacement('\'', "&apos;");
    assert EscapeChar(XML, 5, c) == if c == '\'' then "&apos;" else EscapeChar(XML, 4, c);
    assert EscapeChar(XML, 4, c) == if c == '"' then "&quot;" else EscapeChar(XML, 3, c);
    assert EscapeChar(XML, 3, c) == if c == '>' then "&gt;" else EscapeChar(XML, 2, c);
    assert EscapeChar(XML, 2, c) == if c == '<' then "&lt;" else EscapeChar(XML, 1, c);
    assert EscapeChar(XML, 1, c) == if c == '&' then "&amp;" else EscapeChar(XML, 0, c);
  }

  lemma {:induction false} UnescapeAmpersand(rest: string)
    ensures Unescape("&amp;" + rest) == "&" + Unescape(rest)
  {
    assert ("&amp;" + rest)[5..] == rest;
  }

  lemma {:induction false} UnescapeAngles(rest: string)
    ensures Unescape("&lt;" + rest) == "<" + Unescape(rest)
    ensures Unescape("&gt;" + rest) == ">" + Unescape(rest)
  {
    assert ("&lt;" + rest)[4..] == rest && ("&lt;" + rest)[1] == 'l';
    assert ("&gt;" + rest)[4..] == rest && ("&gt;" + rest)[1] == 'g';
  }

  lemma {:induction false} UnescapeQuotes(rest: string)
    ensures Unescape("&quot;" + rest) == "\"" + Unescape(rest)
    ensures Unescape("&apos;" + rest) == "'" + Unescape(rest)
  {
    assert ("&quot;" + rest)[6..] == rest && ("&quot;" + rest)[1] == 'q';
    assert ("&apos;" + rest)[6..] == rest && ("&apos;" + rest)[1] == 'a' && ("&apos;" + rest)[2] == 'p';
  }

  lemma {:induction false} UnescapePlain(c: char, rest: string)
    requires c != '&'
    ensures Unescape([c] + rest) == [c] + Unescape(rest)
  {
    assert ([c] + rest)[0] == c && ([c] + rest)[1..] == rest;
  }

  lemma {:induction false} UnescapeOne(c: char, rest: string)
    ensures Unescape(EscapeChar(XML, |XML|, c) + rest) == [c] + Unescape(rest)
  {
    XmlEntities(c);
    if c == '&' {
      UnescapeAmpersand(rest);
    } else if c == '<' || c == '>' {
      UnescapeAngles(rest);
    } else if c == '"' || c == '\'' {
      UnescapeQuotes(rest);
    } else {
      UnescapePlain(c, rest);
    }
  }

  lemma {:induction false} UnescapeEach(s: string)
    ensures Unescape(EscapeEach(XML, s)) == s
  {
    if s != "" {
      UnescapeEach(s[1..]);
      UnescapeOne(s[0], EscapeEach(XML, s[1..]));
    }
  }

  /**
   What is injected: nothing for an empty summary; otherwise the header and the summary between
   the two tags, escaped so that reading it as XML gives the summary back.
   */
  lemma {:induction false} InjectedSaysSummary(summary: string) returns (escaped: string)
    ensures BuildPromptPrefix(TAGS, summary) ==
            if summary == "" then None
            else
              Some("Context:" + "\n" + ("<active_memory_plugin>" + "\n" + escaped + "\n" + "</active_memory_plugin>"))
    ensures Unescape(escaped) == summary && '<' !in escaped
  {
    escaped := EscapeXml(summary);
    EscapeIsOneMap(summary);
    UnescapeEach(summary);
  }
}
