/**
 The segmentation in `initSysPrompts` and `initCharacterMemory`: a file's
 lines (as `readlines()` returns them, newline included) are split at marker
 lines into system prompts, and into character names with their
 information, each becoming one memory entry.
 */
module MemoryInit {
  import opened Common

  /** One `memDB.newDBEntry(type, identifier, content)` call. */
  datatype DbEntry = DbEntry(kind: string, identifier: string, content: string)

  const SysPromptSplitter: string := "-=sysPromptSplitter=-"
  const CharInfoSplitter: string := "-=charInfoSplitter=-"
  const CharInfoStart: string := "-=charInfoStart=-"

  /** `line.find(marker) != -1`: the marker occurs anywhere in the line. */
  function HasMarker(line: string, marker: string): (b: bool)
    ensures b <==> Occurs(line, marker)
  {
    Find(line, marker) != -1
  }

  /** `s.replace("\n", "")`. */
  function Strip(s: string): (r: string)
    ensures '\n' !in r && |r| <= |s|
    ensures '\n' !in s ==> r == s
  {
    if s == [] then []
    else if s[0] == '\n' then Strip(s[1..])
    else [s[0]] + Strip(s[1..])
  }

  /** Every newline goes and every other character stays, as many times as it occurred. */
  lemma {:induction false} StripCounts(s: string)
    ensures |Strip(s)| == |s| - multiset(s)['\n']
    ensures multiset(Strip(s)) == multiset(s)['\n' := 0]
  {
    if s != [] {
      assert s == [s[0]] + s[1..];
      StripCounts(s[1..]);
    }
  }

  /** Stripping works character by character and keeps the order of what stays. */
  lemma {:induction false} StripAppend(s: string, t: string)
    ensures Strip(s + t) == Strip(s) + Strip(t)
  {
    if s == [] {
      assert s + t == t;
    } else {
      assert (s + t)[1..] == s[1..] + t;
      StripAppend(s[1..], t);
    }
  }

  /** On one character: a newline disappears, anything else is kept. */
  lemma StripChar(c: char)
    ensures Strip([c]) == if c == '\n' then [] else [c]
  {
    assert [c][1..] == [];
  }

  // ---------------------------------------------------------------- system prompts

  /**
   The texts between splitter lines, in file order: a splitter line closes
   the current text and contributes nothing; any other line extends it.
   There is always a last, open, text.
   */
  function Groups(lines: seq<string>): (g: seq<string>)
    ensures |g| > 0
  {
    if lines == [] then [""]
    else
      var g := Groups(lines[..|lines| - 1]);
      var line := lines[|lines| - 1];
      if HasMarker(line, SysPromptSplitter) then g + [""]
      else g[..|g| - 1] + [g[|g| - 1] + line]
  }

  /** The system prompts: every closed text, and the open one only when it is not empty; newlines removed. */
  function SysPrompts(lines: seq<string>): (r: seq<string>)
  {
    var g := Groups(lines);
    var closed := seq(|g| - 1, i requires 0 <= i < |g| - 1 => Strip(g[i]));
    if g[|g| - 1] != "" then closed + [Strip(g[|g| - 1])] else closed
  }

  /** The number of lines holding `marker`. */
  function Splitters(lines: seq<string>, marker: string): nat
  {
    if lines == [] then 0
    else (if HasMarker(lines[0], marker) then 1 else 0) + Splitters(lines[1..], marker)
  }

  lemma {:induction false} SplittersSnoc(lines: seq<string>, line: string, marker: string)
    ensures Splitters(lines + [line], marker) == Splitters(lines, marker) + if HasMarker(line, marker) then 1 else 0
  {
    if lines == [] {
      assert [] + [line] == [line];
    } else {
      assert (lines + [line])[1..] == lines[1..] + [line];
      SplittersSnoc(lines[1..], line, marker);
    }
  }

  /** One text per splitter line, even an empty one, plus the open text when it is not empty. */
  lemma {:induction false} SysPromptCount(lines: seq<string>)
    ensures |Groups(lines)| == Splitters(lines, SysPromptSplitter) + 1
    ensures |SysPrompts(lines)| == Splitters(lines, SysPromptSplitter) + (if Groups(lines)[|Groups(lines)| - 1] != "" then 1 else 0)
  {
    if lines != [] {
      var init := lines[..|lines| - 1];
      SysPromptCount(init);
      SplittersSnoc(init, lines[|lines| - 1], SysPromptSplitter);
      assert init + [lines[|lines| - 1]] == lines;
    }
  }

  /** The lines, one after the other. */
  function Concat(lines: seq<string>): string
  {
    if lines == [] then "" else lines[0] + Concat(lines[1..])
  }

  lemma {:induction false} ConcatSnoc(lines: seq<string>, line: string)
    ensures Concat(lines + [line]) == Concat(lines) + line
  {
    if lines == [] {
      assert [] + [line] == [line];
    } else {
      assert (lines + [line])[1..] == lines[1..] + [line];
      ConcatSnoc(lines[1..], line);
    }
  }

  /** Without splitter lines there is one text: the whole file. */
  lemma {:induction false} NoSplitterOneGroup(lines: seq<string>)
    requires forall i :: 0 <= i < |lines| ==> !HasMarker(lines[i], SysPromptSplitter)
    ensures Groups(lines) == [Concat(lines)]
  {
    if lines != [] {
      var init := lines[..|lines| - 1];
      NoSplitterOneGroup(init);
      ConcatSnoc(init, lines[|lines| - 1]);
      assert init + [lines[|lines| - 1]] == lines;
    }
  }

  /** A file without splitter lines is one prompt: all of it without newlines, unless the file is empty. */
  lemma NoSplitterOnePrompt(lines: seq<string>)
    requires forall i :: 0 <= i < |lines| ==> !HasMarker(lines[i], SysPromptSplitter)
    ensures SysPrompts(lines) == if Concat(lines) != "" then [Strip(Concat(lines))] else []
  {
    NoSplitterOneGroup(lines);
    OneGroupPrompts(lines, Concat(lines));
  }

  /** A single text is the one prompt, unless it is empty. */
  lemma OneGroupPrompts(lines: seq<string>, c: string)
    requires Groups(lines) == [c]
    ensures SysPrompts(lines) == if c != "" then [Strip(c)] else []
  {
    var closed := seq(0, i requires 0 <= i < 0 => Strip(c));
    assert closed == [];
    assert closed + [Strip(c)] == [Strip(c)];
  }

  /** The entry for a system prompt. */
  function SysPromptEntry(prompt: string): DbEntry
  {
    DbEntry("systemPrompt", "generic", prompt)
  }

  /** What the loop of `initSysPrompts` has collected after `lines`: the closed texts, and the open one. */
  ghost predicate PromptsCollected(lines: seq<string>, prompts: seq<string>, cur: string)
  {
    var g := Groups(lines);
    && |prompts| == |g| - 1
    && (forall k :: 0 <= k < |prompts| ==> prompts[k] == Strip(g[k]))
    && cur == g[|g| - 1]
  }

  lemma CollectPromptSplitter(lines: seq<string>, line: string, prompts: seq<string>, cur: string)
    requires PromptsCollected(lines, prompts, cur) && HasMarker(line, SysPromptSplitter)
    ensures PromptsCollected(lines + [line], prompts + [Strip(cur)], "")
  {
    assert (lines + [line])[..|lines|] == lines;
  }

  lemma CollectPromptLine(lines: seq<string>, line: string, prompts: seq<string>, cur: string)
    requires PromptsCollected(lines, prompts, cur) && !HasMarker(line, SysPromptSplitter)
    ensures PromptsCollected(lines + [line], prompts, cur + line)
  {
    assert (lines + [line])[..|lines|] == lines;
  }

  /** After the last line, the open text is added when it is not empty: that gives `SysPrompts`. */
  lemma CollectedPrompts(lines: seq<string>, prompts: seq<string>, cur: string)
    requires PromptsCollected(lines, prompts, cur)
    ensures SysPrompts(lines) == if cur != "" then prompts + [Strip(cur)] else prompts
  {
    var g := Groups(lines);
    var closed := seq(|g| - 1, i requires 0 <= i < |g| - 1 => Strip(g[i]));
    assert closed == prompts;
  }

  /**
   `initSysPrompts` over the file's lines: the loop of the source, then one
   entry per prompt, in file order.
   */
  method InitSysPrompts(lines: seq<string>) returns (entries: seq<DbEntry>)
    ensures |entries| == |SysPrompts(lines)|
    ensures forall i :: 0 <= i < |entries| ==> entries[i] == SysPromptEntry(SysPrompts(lines)[i])
  {
    var prompts := CollectSysPrompts(lines);
    entries := [];
    for i := 0 to |prompts|
      invariant |entries| == i
      invariant forall k :: 0 <= k < i ==> entries[k] == SysPromptEntry(prompts[k])
    {
      entries := entries + [SysPromptEntry(prompts[i])];
    }
  }

  /** The loop over the lines: the system prompts, in file order. */
  method CollectSysPrompts(lines: seq<string>) returns (prompts: seq<string>)
    ensures prompts == SysPrompts(lines)
  {
    prompts := [];
    var cur := "";
    for i := 0 to |lines|
      invariant PromptsCollected(lines[..i], prompts, cur)
    {
      assert lines[..i + 1] == lines[..i] + [lines[i]];
      if Find(lines[i], SysPromptSplitter) != -1 {
        CollectPromptSplitter(lines[..i], lines[i], prompts, cur);
        prompts := prompts + [Strip(cur)];
        cur := "";
      } else {
        CollectPromptLine(lines[..i], lines[i], prompts, cur);
        cur := cur + lines[i];
      }
    }
    assert lines[..|lines|] == lines;
    CollectedPrompts(lines, prompts, cur);
    if cur != "" {
      prompts := prompts + [Strip(cur)];
    }
  }

  // ---------------------------------------------------------------- character information

  /** One character's block: the name from its last start line (empty without one) and its other lines. */
  datatype Block = Block(name: string, info: string)

  /** `line[17:]`: what follows the first 17 characters (the length of the start marker). */
  function NameOf(line: string): string
  {
    line[Min(17, |line|)..]
  }

  /**
   The blocks between splitter lines, in file order. The splitter check comes
   first; a start line (re)names the open block; any other line adds to its
   information. There is always a last, open, block.
   */
  function Blocks(lines: seq<string>): (b: seq<Block>)
    ensures |b| > 0
  {
    if lines == [] then [Block("", "")]
    else
      var b := Blocks(lines[..|lines| - 1]);
      var last := b[|b| - 1];
      var line := lines[|lines| - 1];
      if HasMarker(line, CharInfoSplitter) then b + [Block("", "")]
      else if HasMarker(line, CharInfoStart) then b[..|b| - 1] + [last.(name := NameOf(line))]
      else b[..|b| - 1] + [last.(info := last.info + line)]
  }

  /** The kept blocks: every closed one, and the open one only when its information is not empty. */
  function KeptBlocks(lines: seq<string>): (r: seq<Block>)
  {
    var b := Blocks(lines);
    if b[|b| - 1].info != "" then b else b[..|b| - 1]
  }

  /** `characterNames` and `characterInformation`, which always have the same length. */
  function Characters(lines: seq<string>): (r: (seq<string>, seq<string>))
    ensures |r.0| == |r.1| == |KeptBlocks(lines)|
  {
    var kept := KeptBlocks(lines);
    (seq(|kept|, i requires 0 <= i < |kept| => Strip(kept[i].name)),
     seq(|kept|, i requires 0 <= i < |kept| => Strip(kept[i].info)))
  }

  /** `list.index(x)`: the first position of `x`. */
  function IndexOf(s: seq<string>, x: string): (r: nat)
    requires x in s
    ensures r < |s| && s[r] == x
    ensures forall j :: 0 <= j < r ==> s[j] != x
  {
    if s[0] == x then 0 else 1 + IndexOf(s[1..], x)
  }

  /** The entry for the `k`-th name: its information is that of the first block with the same name. */
  function EntryFor(names: seq<string>, infos: seq<string>, k: nat): DbEntry
    requires |names| == |infos| && k < |names|
  {
    DbEntry("characterinformation", names[k], infos[IndexOf(names, names[k])])
  }

  /** The entries: one per name, with the information of the first block that carries that name. */
  function CharacterEntries(names: seq<string>, infos: seq<string>): (r: seq<DbEntry>)
    requires |names| == |infos|
    ensures |r| == |names|
    ensures forall i :: 0 <= i < |names| ==> r[i].kind == "characterinformation" && r[i].identifier == names[i]
    ensures forall i, j :: 0 <= i < |names| && 0 <= j < |names| && names[i] == names[j] ==> r[i].content == r[j].content
    ensures forall i :: 0 <= i < |names| && (forall j :: 0 <= j < i ==> names[j] != names[i]) ==> r[i].content == infos[i]
  {
    seq(|names|, i requires 0 <= i < |names| => EntryFor(names, infos, i))
  }

  /**
   One character per splitter line, even one without information, plus the
   trailing block when it has information, whatever its name.
   */
  lemma {:induction false} CharacterCount(lines: seq<string>)
    ensures |Blocks(lines)| == Splitters(lines, CharInfoSplitter) + 1
    ensures |Characters(lines).0| ==
      Splitters(lines, CharInfoSplitter) + (if Blocks(lines)[|Blocks(lines)| - 1].info != "" then 1 else 0)
  {
    if lines != [] {
      var init := lines[..|lines| - 1];
      CharacterCount(init);
      SplittersSnoc(init, lines[|lines| - 1], CharInfoSplitter);
      assert init + [lines[|lines| - 1]] == lines;
    }
  }

  /** A start line right after a splitter line names a block without information, which is dropped. */
  lemma NameOnlyBlockDropped(lines: seq<string>, start: string)
    requires HasMarker(start, CharInfoStart) && !HasMarker(start, CharInfoSplitter)
    requires |lines| > 0 && HasMarker(lines[|lines| - 1], CharInfoSplitter)
    ensures KeptBlocks(lines + [start]) == KeptBlocks(lines)
    ensures |KeptBlocks(lines)| == |Blocks(lines)| - 1
  {
    var b := Blocks(lines);
    assert b == Blocks(lines[..|lines| - 1]) + [Block("", "")];
    assert b[|b| - 1] == Block("", "");
    assert (lines + [start])[..|lines|] == lines;
    var b' := Blocks(lines + [start]);
    assert b' == b[..|b| - 1] + [Block(NameOf(start), "")];
    assert b'[|b'| - 1].info == "";
  }

  /** What the loop of `initCharacterMemory` has collected after `lines`: the closed blocks, and the open one. */
  ghost predicate Collected(lines: seq<string>, names: seq<string>, infos: seq<string>, curName: string, curInfo: string)
  {
    var b := Blocks(lines);
    && |names| == |infos| == |b| - 1
    && (forall k :: 0 <= k < |names| ==> names[k] == Strip(b[k].name))
    && (forall k :: 0 <= k < |infos| ==> infos[k] == Strip(b[k].info))
    && curName == b[|b| - 1].name && curInfo == b[|b| - 1].info
  }

  lemma CollectSplitter(lines: seq<string>, line: string, names: seq<string>, infos: seq<string>, curName: string, curInfo: string)
    requires Collected(lines, names, infos, curName, curInfo) && HasMarker(line, CharInfoSplitter)
    ensures Collected(lines + [line], names + [Strip(curName)], infos + [Strip(curInfo)], "", "")
  {
    assert (lines + [line])[..|lines|] == lines;
  }

  lemma CollectStart(lines: seq<string>, line: string, names: seq<string>, infos: seq<string>, curName: string, curInfo: string)
    requires Collected(lines, names, infos, curName, curInfo)
    requires !HasMarker(line, CharInfoSplitter) && HasMarker(line, CharInfoStart)
    ensures Collected(lines + [line], names, infos, NameOf(line), curInfo)
  {
    assert (lines + [line])[..|lines|] == lines;
  }

  lemma CollectInfo(lines: seq<string>, line: string, names: seq<string>, infos: seq<string>, curName: string, curInfo: string)
    requires Collected(lines, names, infos, curName, curInfo)
    requires !HasMarker(line, CharInfoSplitter) && !HasMarker(line, CharInfoStart)
    ensures Collected(lines + [line], names, infos, curName, curInfo + line)
  {
    assert (lines + [line])[..|lines|] == lines;
  }

  /** After the last line, the open block is added when it has information: that gives `Characters`. */
  lemma CollectedCharacters(lines: seq<string>, names: seq<string>, infos: seq<string>, curName: string, curInfo: string)
    requires Collected(lines, names, infos, curName, curInfo)
    ensures Characters(lines) ==
      if curInfo != "" then (names + [Strip(curName)], infos + [Strip(curInfo)]) else (names, infos)
  {
    var b := Blocks(lines);
    var kept := KeptBlocks(lines);
    var (ns, fs) := Characters(lines);
    var ns' := if curInfo != "" then names + [Strip(curName)] else names;
    var fs' := if curInfo != "" then infos + [Strip(curInfo)] else infos;
    assert |ns'| == |kept|;
    forall k | 0 <= k < |kept|
      ensures ns[k] == ns'[k] && fs[k] == fs'[k]
    {
      assert kept[k] == b[k];
    }
    assert ns == ns';
    assert fs == fs';
  }

  /**
   `initCharacterMemory` over the file's lines: the loop of the source, then
   one entry per collected name.
   */
  method InitCharacterMemory(lines: seq<string>) returns (entries: seq<DbEntry>)
    ensures var (names, infos) := Characters(lines);
      entries == CharacterEntries(names, infos)
  {
    var names, infos := CollectCharacters(lines);
    entries := BuildEntries(names, infos);
  }

  /** The loop over the lines: names and information of the kept blocks, in file order. */
  method CollectCharacters(lines: seq<string>) returns (names: seq<string>, infos: seq<string>)
    ensures (names, infos) == Characters(lines)
  {
    infos := [];
    names := [];
    var curInfo := "";
    var curName := "";
    for i := 0 to |lines|
      invariant Collected(lines[..i], names, infos, curName, curInfo)
    {
      assert lines[..i + 1] == lines[..i] + [lines[i]];
      if Find(lines[i], CharInfoSplitter) != -1 {
        CollectSplitter(lines[..i], lines[i], names, infos, curName, curInfo);
        infos := infos + [Strip(curInfo)];
        names := names + [Strip(curName)];
        curInfo := "";
        curName := "";
      } else if Find(lines[i], CharInfoStart) != -1 {
        CollectStart(lines[..i], lines[i], names, infos, curName, curInfo);
        curName := NameOf(lines[i]);
      } else {
        CollectInfo(lines[..i], lines[i], names, infos, curName, curInfo);
        curInfo := curInfo + lines[i];
      }
    }
    assert lines[..|lines|] == lines;
    CollectedCharacters(lines, names, infos, curName, curInfo);
    if curInfo != "" {
      infos := infos + [Strip(curInfo)];
      names := names + [Strip(curName)];
    }
  }

  /** The loop over the names: one `newDBEntry` call each. */
  method BuildEntries(names: seq<string>, infos: seq<string>) returns (entries: seq<DbEntry>)
    requires |names| == |infos|
    ensures entries == CharacterEntries(names, infos)
  {
    entries := [];
    for i := 0 to |names|
      invariant |entries| == i
      invariant forall k :: 0 <= k < i ==> entries[k] == EntryFor(names, infos, k)
    {
      entries := entries + [EntryFor(names, infos, i)];
    }
    var r := CharacterEntries(names, infos);
    assert forall k :: 0 <= k < |names| ==> r[k] == EntryFor(names, infos, k);
  }
}
