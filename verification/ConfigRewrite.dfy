// Rewriting the configuration file: lines are replaced, appended and blanked (config.c).
module ConfigRewrite {
  import opened Basics

  // REDIS_CONFIG_REWRITE_SIGNATURE
  const SIGNATURE: string := "# Generated by CONFIG REWRITE"

  // A line of the old file: a comment or an empty line, a line that cannot be understood, or a line for
  // an option.
  datatype OldLine = Comment(text: string) | Unparsable(text: string) | Setting(text: string, option: string)

  // The line as it is kept.
  function TextOf(l: OldLine): string { if l.Unparsable? then "# ??? " + l.text else l.text }

  function OptionOf(l: OldLine): Option<string> { if l.Setting? then Some(l.option) else None }

  // What has become of a line.
  datatype Tag = Plain | Unused(option: string) | Emitted(option: string) | Blanked(option: string)

  // ---------------------------------------------------------------------------------------------
  // The lines with a tag, in order
  // ---------------------------------------------------------------------------------------------

  ghost function Select(lines: seq<string>, tags: seq<Tag>, t: Tag): seq<string>
    requires |lines| == |tags|
  {
    if lines == [] then []
    else
      var n := |lines| - 1;
      Select(lines[..n], tags[..n], t) + if tags[n] == t then [lines[n]] else []
  }

  // What was emitted for an option, in order.
  ghost function LogOf(log: seq<(string, string)>, option: string): seq<string> {
    if log == [] then []
    else
      var last := log[|log| - 1];
      LogOf(log[..|log| - 1], option) + if last.0 == option then [last.1] else []
  }

  lemma SelectSnoc(lines: seq<string>, tags: seq<Tag>, x: string, u: Tag, t: Tag)
    requires |lines| == |tags|
    ensures Select(lines + [x], tags + [u], t) == Select(lines, tags, t) + if u == t then [x] else []
  {
    assert (lines + [x])[..|lines|] == lines && (tags + [u])[..|tags|] == tags;
  }

  lemma LogSnoc(log: seq<(string, string)>, option: string, x: string, o: string)
    ensures LogOf(log + [(option, x)], o) == LogOf(log, o) + if option == o then [x] else []
  {
    assert (log + [(option, x)])[..|log|] == log;
  }

  lemma NothingSelected(t: Tag)
    ensures Select([], [], t) == []
  {}

  lemma {:induction false} SelectConcat(a: seq<string>, at: seq<Tag>, b: seq<string>, bt: seq<Tag>, t: Tag)
    requires |a| == |at| && |b| == |bt|
    ensures Select(a + b, at + bt, t) == Select(a, at, t) + Select(b, bt, t)
  {
    hide Select;
    if b == [] {
      assert a + b == a && at + bt == at;
      NothingSelected(t);
    } else {
      var n := |b| - 1;
      var b0, bt0 := b[..n], bt[..n];
      SelectConcat(a, at, b0, bt0, t);
      assert a + b == a + b0 + [b[n]] && at + bt == at + bt0 + [bt[n]];
      SelectSnoc(a + b0, at + bt0, b[n], bt[n], t);
      assert b == b0 + [b[n]] && bt == bt0 + [bt[n]];
      SelectSnoc(b0, bt0, b[n], bt[n], t);
    }
  }

  lemma {:induction false} SelectNone(lines: seq<string>, tags: seq<Tag>, t: Tag)
    requires |lines| == |tags| && forall i :: 0 <= i < |tags| ==> tags[i] != t
    ensures Select(lines, tags, t) == []
  {
    if lines != [] { SelectNone(lines[..|lines| - 1], tags[..|lines| - 1], t); }
  }

  // Changing line k, and with it its tag.
  lemma SelectPut(lines: seq<string>, tags: seq<Tag>, k: nat, x: string, u: Tag, t: Tag)
    requires |lines| == |tags| && k < |lines| && tags[k] != t
    ensures u != t ==> Select(lines[k := x], tags[k := u], t) == Select(lines, tags, t)
    ensures u == t && (forall i :: k < i < |tags| ==> tags[i] != t) ==> Select(lines[k := x], tags[k := u], t) == Select(lines, tags, t) + [x]
  {
    hide Select;
    var a, at, b, bt := lines[..k], tags[..k], lines[k + 1..], tags[k + 1..];
    assert lines == a + [lines[k]] + b && tags == at + [tags[k]] + bt;
    assert lines[k := x] == a + [x] + b && tags[k := u] == at + [u] + bt;
    SelectSnoc(a, at, lines[k], tags[k], t);
    SelectSnoc(a, at, x, u, t);
    SelectConcat(a + [lines[k]], at + [tags[k]], b, bt, t);
    SelectConcat(a + [x], at + [u], b, bt, t);
    if forall i :: k < i < |tags| ==> tags[i] != t {
      forall i | 0 <= i < |bt| ensures bt[i] != t { assert bt[i] == tags[k + 1 + i]; }
      SelectNone(b, bt, t);
    }
  }

  // ---------------------------------------------------------------------------------------------
  // The invariant
  // ---------------------------------------------------------------------------------------------

  ghost predicate Ascending(l: seq<nat>) { forall i, j :: 0 <= i < j < |l| ==> l[i] < l[j] }

  // The numbers in the list of an option are those of its unused lines.
  ghost predicate ListOk(l: seq<nat>, tags: seq<Tag>, option: string) {
    && Ascending(l)
    && (forall i :: 0 <= i < |l| ==> l[i] < |tags| && tags[l[i]] == Unused(option))
    && (forall k :: 0 <= k < |tags| && tags[k] == Unused(option) ==> k in l)
  }

  function ListOf(index: map<string, seq<nat>>, option: string): seq<nat> { if option in index then index[option] else [] }

  ghost predicate IndexOk(index: map<string, seq<nat>>, tags: seq<Tag>) { forall o :: ListOk(ListOf(index, o), tags, o) }

  // Lines are used from the first to the last.
  ghost predicate OrderOk(tags: seq<Tag>) {
    forall i, j :: 0 <= i < |tags| && 0 <= j < |tags| && tags[i].Emitted? && tags[j] == Unused(tags[i].option) ==> i < j
  }

  // Line i, which may be one of the old file.
  ghost predicate LineOk(before: seq<OldLine>, i: nat, line: string, tag: Tag) {
    if i < |before| then
      && (tag.Plain? <==> OptionOf(before[i]).None?)
      && (!tag.Plain? ==> OptionOf(before[i]) == Some(tag.option))
      && (tag.Plain? || tag.Unused? ==> line == TextOf(before[i]))
      && (tag.Blanked? ==> line == "")
    else tag.Emitted? || (tag.Plain? && line == SIGNATURE)
  }

  ghost predicate LinesOk(before: seq<OldLine>, lines: seq<string>, tags: seq<Tag>) {
    && |before| <= |lines| == |tags|
    && forall i :: 0 <= i < |lines| ==> LineOk(before, i, lines[i], tags[i])
  }

  ghost predicate LogOk(lines: seq<string>, tags: seq<Tag>, log: seq<(string, string)>)
    requires |lines| == |tags|
  {
    forall o :: Select(lines, tags, Emitted(o)) == LogOf(log, o)
  }

  // ---------------------------------------------------------------------------------------------
  // Steps
  // ---------------------------------------------------------------------------------------------

  lemma ReuseOrder(tags: seq<Tag>, l: seq<nat>, option: string)
    requires OrderOk(tags) && ListOk(l, tags, option) && l != []
    ensures OrderOk(tags[l[0] := Emitted(option)])
    ensures forall i :: l[0] < i < |tags| ==> tags[i] != Emitted(option)
  {
    var k := l[0];
    var after := tags[k := Emitted(option)];
    forall i, j | 0 <= i < |after| && 0 <= j < |after| && after[i].Emitted? && after[j] == Unused(after[i].option) ensures i < j {
      if i == k {
        assert tags[j] == Unused(option);
        assert j in l;
      }
    }
  }

  lemma ReuseIndex(index: map<string, seq<nat>>, tags: seq<Tag>, option: string)
    requires IndexOk(index, tags) && ListOf(index, option) != []
    ensures var l := ListOf(index, option);
      && l[0] < |tags|
      && ListOk(l[1..], tags[l[0] := Emitted(option)], option)
      && forall o :: o != option ==> ListOk(ListOf(index, o), tags[l[0] := Emitted(option)], o)
  {
    var l := ListOf(index, option);
    assert ListOk(l, tags, option);
    var after := tags[l[0] := Emitted(option)];
    forall k | 0 <= k < |after| && after[k] == Unused(option) ensures k in l[1..] {
      assert tags[k] == Unused(option);
      assert k in l && k != l[0];
      assert l == [l[0]] + l[1..];
    }
    forall o | o != option ensures ListOk(ListOf(index, o), after, o) {
      assert ListOk(ListOf(index, o), tags, o);
    }
  }

  lemma GrowIndex(index: map<string, seq<nat>>, tags: seq<Tag>, t: Tag)
    requires IndexOk(index, tags) && !t.Unused?
    ensures IndexOk(index, tags + [t])
  {
    forall o ensures ListOk(ListOf(index, o), tags + [t], o) { assert ListOk(ListOf(index, o), tags, o); }
  }

  lemma GrowOrder(tags: seq<Tag>, t: Tag)
    requires OrderOk(tags) && (t.Plain? || (t.Emitted? && forall i :: 0 <= i < |tags| ==> tags[i] != Unused(t.option)))
    ensures OrderOk(tags + [t])
  {}

  lemma GrowLog(lines: seq<string>, tags: seq<Tag>, log: seq<(string, string)>, x: string, t: Tag)
    requires |lines| == |tags| && LogOk(lines, tags, log)
    ensures !t.Emitted? ==> LogOk(lines + [x], tags + [t], log)
    ensures t.Emitted? ==> LogOk(lines + [x], tags + [t], log + [(t.option, x)])
  {
    hide Select, LogOf;
    forall o { SelectSnoc(lines, tags, x, t, Emitted(o)); }
    if t.Emitted? {
      forall o { LogSnoc(log, t.option, x, o); }
    }
  }

  lemma ReuseLog(lines: seq<string>, tags: seq<Tag>, log: seq<(string, string)>, k: nat, option: string, x: string)
    requires |lines| == |tags| && LogOk(lines, tags, log) && k < |lines| && tags[k] == Unused(option)
    requires forall i :: k < i < |tags| ==> tags[i] != Emitted(option)
    ensures LogOk(lines[k := x], tags[k := Emitted(option)], log + [(option, x)])
  {
    hide Select, LogOf;
    forall o ensures Select(lines[k := x], tags[k := Emitted(option)], Emitted(o)) == LogOf(log + [(option, x)], o) {
      SelectPut(lines, tags, k, x, Emitted(option), Emitted(o));
      LogSnoc(log, option, x, o);
    }
  }

  lemma BlankLog(lines: seq<string>, tags: seq<Tag>, log: seq<(string, string)>, k: nat, option: string)
    requires |lines| == |tags| && LogOk(lines, tags, log) && k < |lines| && tags[k] == Unused(option)
    ensures LogOk(lines[k := ""], tags[k := Blanked(option)], log)
  {
    hide Select, LogOf;
    forall o ensures Select(lines[k := ""], tags[k := Blanked(option)], Emitted(o)) == LogOf(log, o) {
      SelectPut(lines, tags, k, "", Blanked(option), Emitted(o));
    }
  }

  // Lines are used or blanked for processed options only.
  ghost predicate UsedOk(tags: seq<Tag>, rewritten: set<string>) {
    forall i :: 0 <= i < |tags| && (tags[i].Emitted? || tags[i].Blanked?) ==> tags[i].option in rewritten
  }

  // In the end a line of the old file is unchanged, unless it is one of an option that was processed; then
  // it is one that was emitted, or empty.
  ghost predicate Finished(was: OldLine, line: string, tag: Tag, rewritten: set<string>) {
    var o := OptionOf(was);
    if o.None? || o.value !in rewritten then line == TextOf(was) else tag == Emitted(o.value) || line == ""
  }

  // No line changes but unused ones of an option, and those become used ones.
  ghost predicate Reused(lines: seq<string>, tags: seq<Tag>, lines': seq<string>, tags': seq<Tag>, option: string) {
    && |lines| == |tags| <= |lines'| == |tags'|
    && forall i :: 0 <= i < |lines| ==> (lines'[i] == lines[i] && tags'[i] == tags[i]) || (tags[i] == Unused(option) && tags'[i] == Emitted(option))
  }

  // ---------------------------------------------------------------------------------------------
  // The state
  // ---------------------------------------------------------------------------------------------

  class RewriteState {
    ghost const before: seq<OldLine>
    // numlines and lines, option_to_line, rewritten, needs_signature, force_write
    var lines: seq<string>
    var index: map<string, seq<nat>>
    var rewritten: set<string>
    var needsSignature: bool
    var forceWrite: bool
    // What has become of the lines, and what was emitted.
    ghost var tags: seq<Tag>
    ghost var log: seq<(string, string)>

    ghost predicate Valid()
      reads this
    {
      && LinesOk(before, lines, tags) && LogOk(lines, tags, log) && UsedOk(tags, rewritten)
      && IndexOk(index, tags) && OrderOk(tags)
      && (forall o :: o in index ==> index[o] != [])
    }

    // rewriteConfigReadOldFile, with the lines already split into words.
    constructor (old_: seq<OldLine>)
      ensures Valid() && before == old_ && log == [] && rewritten == {} && !forceWrite
      ensures |lines| == |old_|
      ensures forall i :: 0 <= i < |old_| ==> lines[i] == (if old_[i].Unparsable? then "# ??? " else "") + old_[i].text
      ensures needsSignature <==> forall i :: 0 <= i < |old_| ==> old_[i] != Comment(SIGNATURE)
    {
      before := old_;
      lines, index, rewritten, needsSignature, forceWrite := [], map[], {}, true, false;
      tags, log := [], [];
      new;
      var i := 0;
      while i < |old_|
        invariant 0 <= i <= |old_| && |lines| == |tags| == i && before == old_ && log == [] && rewritten == {} && !forceWrite
        invariant forall k :: 0 <= k < i ==> LineOk(old_, k, lines[k], tags[k]) && !tags[k].Emitted? && !tags[k].Blanked?
        invariant IndexOk(index, tags) && forall o :: o in index ==> index[o] != []
        invariant needsSignature <==> forall k :: 0 <= k < i ==> old_[k] != Comment(SIGNATURE)
      {
        var line := old_[i];
        if line.Comment? && needsSignature && line.text == SIGNATURE {
          needsSignature := false;
        }
        ghost var b := tags;
        lines := lines + [TextOf(line)];
        if line.Setting? {
          NewIndex(index, tags, line.option);
          tags := tags + [Unused(line.option)];
          AddLineNumberToOption(line.option, i);
        } else {
          GrowIndex(index, tags, Plain);
          tags := tags + [Plain];
        }
        i := i + 1;
      }
      NothingEmitted(lines, tags);
    }

    // rewriteConfigAddLineNumberToOption
    method AddLineNumberToOption(option: string, n: nat)
      modifies `index
      ensures index == old(index)[option := ListOf(old(index), option) + [n]]
    {
      if option !in index {
        index := index[option := []];
      }
      index := index[option := index[option] + [n]];
    }

    // rewriteConfigMarkAsProcessed
    method MarkAsProcessed(option: string)
      requires Valid()
      modifies `rewritten
      ensures Valid() && rewritten == old(rewritten) + {option}
    {
      hide LinesOk, LogOk, IndexOk, OrderOk;
      rewritten := rewritten + {option};
    }

    // rewriteConfigAppendLine
    method AppendLine(line: string, ghost tag: Tag)
      requires Valid()
      requires if tag.Emitted? then tag.option in rewritten && tag.option !in index else tag.Plain? && line == SIGNATURE
      modifies `lines, `tags, `log
      ensures Valid() && lines == old(lines) + [line] && tags == old(tags) + [tag]
      ensures log == old(log) + if tag.Emitted? then [(tag.option, line)] else []
    {
      hide Select, LogOf;
      GrowIndex(index, tags, tag);
      GrowLog(lines, tags, log, line, tag);
      if tag.Emitted? { NoneUnused(index, tags, tag.option); }
      GrowOrder(tags, tag);
      GrowLines(before, lines, tags, line, tag);
      lines := lines + [line];
      tags := tags + [tag];
      if tag.Emitted? {
        log := log + [(tag.option, line)];
      } else {
        assert log + [] == log;
      }
    }

    // The reuse of the first line of an option that is still unused.
    method ReuseLine(option: string, line: string)
      requires Valid() && option in index && option in rewritten
      modifies `lines, `tags, `log, `index
      ensures Valid() && log == old(log) + [(option, line)]
      ensures Reused(old(lines), old(tags), lines, tags, option)
      ensures old(index)[option] != [] && old(index)[option][0] < |old(lines)| && lines == old(lines)[old(index)[option][0] := line]
    {
      hide Select, LogOf, ListOk, LineOk, LogOk, OrderOk;
      var l := index[option];
      var linenum := l[0];
      assert ListOk(ListOf(index, option), tags, option);
      FirstUnused(l, tags, option);
      ReuseOrder(tags, l, option);
      ReuseLog(lines, tags, log, linenum, option, line);
      ReuseLines(before, lines, tags, linenum, option, line);
      IndexAfterReuse(index, tags, option);
      l := l[1..];
      index := index[option := l];
      if |l| == 0 {
        index := index - {option};
      }
      assert index == WithoutFirst(old(index), option);
      lines := lines[linenum := line];
      tags := tags[linenum := Emitted(option)];
      log := log + [(option, line)];
    }

    // rewriteConfigRewriteLine
    method RewriteLine(option: string, line: string, force: bool) returns (written: bool)
      requires Valid()
      modifies `lines, `tags, `log, `index, `rewritten, `needsSignature
      ensures Valid() && rewritten == old(rewritten) + {option}
      ensures written <==> option in old(index) || force || forceWrite
      ensures log == old(log) + if written then [(option, line)] else []
      ensures Reused(old(lines), old(tags), lines, tags, option)
      ensures if !written then lines == old(lines) && tags == old(tags)
        else if option in old(index) then
          old(index)[option] != [] && old(index)[option][0] < |old(lines)| && lines == old(lines)[old(index)[option][0] := line]
        else lines == old(lines) + (if old(needsSignature) then [SIGNATURE] else []) + [line]
      ensures needsSignature == (old(needsSignature) && (!written || option in old(index)))
    {
      hide LinesOk, LogOk, IndexOk, OrderOk, UsedOk;
      MarkAsProcessed(option);
      ValidLengths();
      if option !in index && !force && !forceWrite {
        return false;
      }
      if option in index {
        ReuseLine(option, line);
      } else {
        if needsSignature {
          AppendLine(SIGNATURE, Plain);
          needsSignature := false;
        }
        AppendLine(line, Emitted(option));
      }
      written := true;
    }

    lemma ValidLengths()
      requires Valid()
      ensures |lines| == |tags|
    {}

    // Valid, but for lists that have become empty.
    ghost predicate Settling()
      reads this
    {
      LinesOk(before, lines, tags) && LogOk(lines, tags, log) && UsedOk(tags, rewritten) && IndexOk(index, tags)
    }

    // The first line that is left of an option.
    method BlankFirst(option: string)
      requires Settling() && option in index && index[option] != [] && option in rewritten
      modifies `lines, `tags, `index
      ensures Settling() && index == old(index)[option := old(index)[option][1..]]
      ensures |lines| == |old(lines)|
    {
      hide Select, LogOf, ListOk, LogOk;
      var l := index[option];
      var linenum := l[0];
      assert ListOk(ListOf(index, option), tags, option);
      FirstUnused(l, tags, option);
      BlankLog(lines, tags, log, linenum, option);
      BlankLines(before, lines, tags, linenum, option);
      IndexAfterBlank(index, tags, option);
      lines := lines[linenum := ""];
      tags := tags[linenum := Blanked(option)];
      index := index[option := l[1..]];
    }

    // The lines that are left of an option.
    method BlankAll(option: string)
      requires Settling() && option in index && option in rewritten
      modifies `lines, `tags, `index
      ensures Settling() && index == old(index)[option := []] && |lines| == |old(lines)|
    {
      hide LinesOk, LogOk, UsedOk, IndexOk;
      while |index[option]| > 0
        invariant Settling() && option in index && |lines| == |old(lines)| && index == old(index)[option := index[option]]
        decreases |index[option]|
      {
        BlankFirst(option);
      }
    }

    // rewriteConfigRemoveOrphaned. Comments, and the lines of options that nobody processed, are as they
    // were; the lines of an option that was processed are those emitted for it, in that order, and blanks.
    method RemoveOrphaned()
      requires Valid()
      modifies `lines, `tags, `index
      ensures LinesOk(before, lines, tags) && |lines| == |old(lines)|
      ensures |before| <= |lines| == |tags|
      ensures forall i :: 0 <= i < |before| ==> Finished(before[i], lines[i], tags[i], rewritten)
      ensures forall i :: 0 <= i < |before| && before[i].Comment? ==> lines[i] == before[i].text
      ensures forall i :: 0 <= i < |before| && before[i].Setting? && before[i].option !in rewritten ==> lines[i] == before[i].text
      ensures forall o :: Select(lines, tags, Emitted(o)) == LogOf(log, o)
    {
      hide LinesOk, LogOk, UsedOk, IndexOk, OrderOk;
      var rest := index.Keys;
      while rest != {}
        invariant Settling() && |lines| == |old(lines)| && index.Keys == old(index).Keys && rest <= index.Keys
        invariant forall o :: o in index && o in rewritten && o !in rest ==> index[o] == []
        decreases rest
      {
        var o :| o in rest;
        if o in rewritten {
          BlankAll(o);
        }
        rest := rest - {o};
      }
      Settled(before, lines, tags, index, rewritten, log);
    }

    // rewriteConfigGetContentFromState
    method GetContent() returns (content: string)
      ensures content == Join(Squeeze(lines, false))
    {
      content := "";
      var wasEmpty := false;
      var j := 0;
      assert lines[0..] == lines;
      while j < |lines|
        invariant 0 <= j <= |lines|
        invariant content + Join(Squeeze(lines[j..], wasEmpty)) == Join(Squeeze(lines, false))
      {
        assert lines[j..][0] == lines[j] && lines[j..][1..] == lines[j + 1..];
        var skip := lines[j] == "" && wasEmpty;
        if !skip {
          JoinFirst(lines[j], Squeeze(lines[j + 1..], lines[j] == ""));
          content := content + lines[j];
          content := content + "\n";
        }
        wasEmpty := lines[j] == "";
        j := j + 1;
      }
      assert lines[j..] == [];
    }
  }

  // ---------------------------------------------------------------------------------------------
  // The end
  // ---------------------------------------------------------------------------------------------

  lemma BlankLines(before: seq<OldLine>, lines: seq<string>, tags: seq<Tag>, k: nat, option: string)
    requires LinesOk(before, lines, tags) && k < |tags| && tags[k] == Unused(option)
    ensures LinesOk(before, lines[k := ""], tags[k := Blanked(option)])
  {}

  lemma IndexAfterBlank(index: map<string, seq<nat>>, tags: seq<Tag>, option: string)
    requires IndexOk(index, tags) && option in index && index[option] != []
    ensures index[option][0] < |tags|
    ensures IndexOk(index[option := index[option][1..]], tags[index[option][0] := Blanked(option)])
  {
    var l := index[option];
    assert ListOk(ListOf(index, option), tags, option);
    var rest, after := index[option := l[1..]], tags[l[0] := Blanked(option)];
    forall o ensures ListOk(ListOf(rest, o), after, o) {
      assert ListOk(ListOf(index, o), tags, o);
      if o == option { RestUnused(l, tags, option); }
    }
  }

  lemma RestUnused(l: seq<nat>, tags: seq<Tag>, option: string)
    requires ListOk(l, tags, option) && l != []
    ensures ListOk(l[1..], tags[l[0] := Blanked(option)], option)
  {
    var after := tags[l[0] := Blanked(option)];
    forall k | 0 <= k < |after| && after[k] == Unused(option) ensures k in l[1..] {
      assert tags[k] == Unused(option);
      assert k in l && k != l[0];
      assert l == [l[0]] + l[1..];
    }
  }

  lemma Settled(before: seq<OldLine>, lines: seq<string>, tags: seq<Tag>, index: map<string, seq<nat>>, rewritten: set<string>, log: seq<(string, string)>)
    requires LinesOk(before, lines, tags) && LogOk(lines, tags, log) && UsedOk(tags, rewritten) && IndexOk(index, tags)
    requires forall o :: o in index && o in rewritten ==> index[o] == []
    ensures |before| <= |lines| == |tags|
    ensures forall i :: 0 <= i < |before| ==> Finished(before[i], lines[i], tags[i], rewritten)
    ensures forall o :: Select(lines, tags, Emitted(o)) == LogOf(log, o)
  {
    hide Select, LogOf;
    forall i | 0 <= i < |before| ensures Finished(before[i], lines[i], tags[i], rewritten) {
      assert LineOk(before, i, lines[i], tags[i]);
      if tags[i].Unused? {
        assert ListOk(ListOf(index, tags[i].option), tags, tags[i].option);
      }
    }
  }

  // Clusters of empty lines become one.
  function Squeeze(lines: seq<string>, wasEmpty: bool): seq<string> {
    if lines == [] then []
    else if lines[0] == "" && wasEmpty then Squeeze(lines[1..], true)
    else [lines[0]] + Squeeze(lines[1..], lines[0] == "")
  }

  function Join(lines: seq<string>): string { if lines == [] then "" else lines[0] + "\n" + Join(lines[1..]) }

  // The lines of a text.
  function Split(s: string): seq<string> {
    if s == "" then []
    else
      var k := LineEnd(s);
      if k == |s| then [s] else [s[..k]] + Split(s[k + 1..])
  }

  function LineEnd(s: string): (k: nat)
    ensures k <= |s|
  {
    if s == "" || s[0] == '\n' then 0 else 1 + LineEnd(s[1..])
  }

  lemma {:induction false} LineEndIs(a: string, rest: string)
    requires '\n' !in a
    ensures LineEnd(a + "\n" + rest) == |a|
  {
    if a == "" {
      assert (a + "\n" + rest)[0] == '\n';
    } else {
      assert (a + "\n" + rest)[1..] == a[1..] + "\n" + rest;
      LineEndIs(a[1..], rest);
    }
  }

  // A text that is joined from lines has these lines.
  lemma {:induction false} SplitJoin(lines: seq<string>)
    requires forall i :: 0 <= i < |lines| ==> '\n' !in lines[i]
    ensures Split(Join(lines)) == lines
  {
    if lines != [] {
      hide LineEnd;
      var rest := Join(lines[1..]);
      LineEndIs(lines[0], rest);
      var s := Join(lines);
      assert s[..|lines[0]|] == lines[0] && s[|lines[0]| + 1..] == rest;
      SplitJoin(lines[1..]);
    }
  }

  lemma JoinFirst(line: string, rest: seq<string>)
    ensures Join([line] + rest) == line + "\n" + Join(rest)
  {
    assert ([line] + rest)[1..] == rest;
  }

  function NonEmpty(lines: seq<string>): seq<string> {
    if lines == [] then [] else (if lines[0] == "" then [] else [lines[0]]) + NonEmpty(lines[1..])
  }

  // Squeezing keeps all lines that are not empty, in order, and leaves no two empty lines together.
  lemma {:induction false} SqueezeKeeps(lines: seq<string>, wasEmpty: bool)
    ensures var q := Squeeze(lines, wasEmpty);
      && NonEmpty(q) == NonEmpty(lines)
      && (wasEmpty && q != [] ==> q[0] != "")
      && forall i :: 0 < i < |q| && q[i - 1] == "" ==> q[i] != ""
  {
    if lines != [] {
      if lines[0] == "" && wasEmpty {
        SqueezeKeeps(lines[1..], true);
      } else {
        SqueezeKeeps(lines[1..], lines[0] == "");
        assert Squeeze(lines, wasEmpty)[1..] == Squeeze(lines[1..], lines[0] == "");
      }
    }
  }

  // The lines that stay: those that are not empty, and those behind a line that is not.
  function Staying(lines: seq<string>, wasEmpty: bool, n: nat): seq<string>
    requires n <= |lines|
  {
    if n == 0 then []
    else
      var behindEmpty := if n == 1 then wasEmpty else lines[n - 2] == "";
      Staying(lines, wasEmpty, n - 1) + if lines[n - 1] == "" && behindEmpty then [] else [lines[n - 1]]
  }

  lemma {:induction false} StayingRest(lines: seq<string>, wasEmpty: bool, n: nat)
    requires 0 < n <= |lines|
    ensures Staying(lines, wasEmpty, n) == Staying(lines, wasEmpty, 1) + Staying(lines[1..], lines[0] == "", n - 1)
  {
    if n == 1 {
      assert Staying(lines, wasEmpty, 1) + [] == Staying(lines, wasEmpty, 1);
    } else {
      StayingRest(lines, wasEmpty, n - 1);
    }
  }

  // Of a cluster of empty lines exactly the first stays.
  lemma {:induction false} SqueezeExactly(lines: seq<string>, wasEmpty: bool)
    ensures Squeeze(lines, wasEmpty) == Staying(lines, wasEmpty, |lines|)
  {
    if lines != [] {
      SqueezeExactly(lines[1..], lines[0] == "");
      StayingRest(lines, wasEmpty, |lines|);
      assert Staying(lines, wasEmpty, 1) == if lines[0] == "" && wasEmpty then [] else [lines[0]];
    }
  }

  lemma FirstUnused(l: seq<nat>, tags: seq<Tag>, option: string)
    requires ListOk(l, tags, option) && l != []
    ensures l[0] < |tags| && tags[l[0]] == Unused(option)
  {}

  lemma ReuseLines(before: seq<OldLine>, lines: seq<string>, tags: seq<Tag>, k: nat, option: string, x: string)
    requires LinesOk(before, lines, tags) && k < |tags| && tags[k] == Unused(option)
    ensures LinesOk(before, lines[k := x], tags[k := Emitted(option)])
  {}

  lemma GrowLines(before: seq<OldLine>, lines: seq<string>, tags: seq<Tag>, x: string, t: Tag)
    requires LinesOk(before, lines, tags) && (t.Emitted? || (t.Plain? && x == SIGNATURE))
    ensures LinesOk(before, lines + [x], tags + [t])
  {}

  function WithoutFirst(index: map<string, seq<nat>>, option: string): map<string, seq<nat>>
    requires option in index && index[option] != []
  {
    if |index[option]| == 1 then index - {option} else index[option := index[option][1..]]
  }

  // The index after the first unused line of an option was used.
  lemma IndexAfterReuse(index: map<string, seq<nat>>, tags: seq<Tag>, option: string)
    requires IndexOk(index, tags) && option in index && index[option] != []
    ensures index[option][0] < |tags|
    ensures IndexOk(WithoutFirst(index, option), tags[index[option][0] := Emitted(option)])
  {
    hide ListOk;
    var l := index[option];
    ReuseIndex(index, tags, option);
    var rest := WithoutFirst(index, option);
    forall o ensures ListOk(ListOf(rest, o), tags[l[0] := Emitted(option)], o) {
      if o == option {
        assert ListOf(rest, o) == l[1..];
      } else {
        assert ListOf(rest, o) == ListOf(index, o);
      }
    }
  }

  lemma NoneUnused(index: map<string, seq<nat>>, tags: seq<Tag>, option: string)
    requires IndexOk(index, tags) && option !in index
    ensures forall i :: 0 <= i < |tags| ==> tags[i] != Unused(option)
  {
    assert ListOk(ListOf(index, option), tags, option);
  }

  lemma OneMoreUnused(l: seq<nat>, tags: seq<Tag>, option: string)
    requires ListOk(l, tags, option)
    ensures ListOk(l + [|tags|], tags + [Unused(option)], option)
  {
    var l', tags' := l + [|tags|], tags + [Unused(option)];
    forall k | 0 <= k < |tags'| && tags'[k] == Unused(option) ensures k in l' {
      if k < |tags| {
        assert k in l;
      } else {
        assert l'[|l|] == k;
      }
    }
  }

  lemma OtherUnused(l: seq<nat>, tags: seq<Tag>, option: string, o: string)
    requires ListOk(l, tags, o) && o != option
    ensures ListOk(l, tags + [Unused(option)], o)
  {}

  // A line of an option, while the old file is read.
  lemma NewIndex(index: map<string, seq<nat>>, tags: seq<Tag>, option: string)
    requires IndexOk(index, tags)
    ensures IndexOk(index[option := ListOf(index, option) + [|tags|]], tags + [Unused(option)])
  {
    hide ListOk;
    var index' := index[option := ListOf(index, option) + [|tags|]];
    forall o ensures ListOk(ListOf(index', o), tags + [Unused(option)], o) {
      assert ListOk(ListOf(index, o), tags, o);
      if o == option {
        OneMoreUnused(ListOf(index, o), tags, o);
      } else {
        OtherUnused(ListOf(index, o), tags, option, o);
      }
    }
  }

  lemma NothingEmitted(lines: seq<string>, tags: seq<Tag>)
    requires |lines| == |tags| && forall i :: 0 <= i < |tags| ==> !tags[i].Emitted?
    ensures LogOk(lines, tags, [])
  {
    forall o { SelectNone(lines, tags, Emitted(o)); }
  }
}
