// The command table as ACL rules see it, and what a rule means (acl.c).
module AclCommands {
  import opened Basics
  import opened AclRules

  // ---------------------------------------------------------------------------------------------
  // Names
  // ---------------------------------------------------------------------------------------------

  function LowerChar(c: char): char { if 'A' <= c <= 'Z' then (c - 'A') + 'a' else c }

  // sdstolower
  function Lower(s: string): (r: string)
    ensures |r| == |s|
  {
    if s == "" then "" else [LowerChar(s[0])] + Lower(s[1..])
  }

  lemma {:induction false} LowerAt(s: string, i: nat)
    requires i < |s|
    ensures Lower(s)[i] == LowerChar(s[i])
  {
    if i > 0 { LowerAt(s[1..], i - 1); }
  }

  lemma {:induction false} LowerConcat(a: string, b: string)
    ensures Lower(a + b) == Lower(a) + Lower(b)
  {
    if a == "" {
      assert a + b == b;
    } else {
      assert (a + b)[1..] == a[1..] + b;
      LowerConcat(a[1..], b);
    }
  }

  lemma {:induction false} LowerIdempotent(s: string)
    ensures Lower(Lower(s)) == Lower(s)
  {
    if s != "" {
      LowerIdempotent(s[1..]);
      assert Lower(s)[1..] == Lower(s[1..]);
    }
  }

  // White space, quotes and the end of a string separate words.
  predicate PlainChar(c: char) {
    c != ' ' && c != '\0' && c != '\n' && c != '\r' && c != '\t' && c != '\"' && c != '\''
  }

  ghost predicate Plain(s: string) { forall i :: 0 <= i < |s| ==> PlainChar(s[i]) }

  // Lower-casing keeps the characters that the syntax of rules depends on where they are.
  lemma LowerKeeps(s: string)
    ensures '|' in Lower(s) <==> '|' in s
    ensures Plain(s) ==> Plain(Lower(s))
  {
    forall i | 0 <= i < |s| ensures Lower(s)[i] == LowerChar(s[i]) {
      LowerAt(s, i);
    }
    if '|' in s {
      var i :| 0 <= i < |s| && s[i] == '|';
      assert Lower(s)[i] == '|';
    }
  }

  // ---------------------------------------------------------------------------------------------
  // The table
  // ---------------------------------------------------------------------------------------------

  datatype Sub = Sub(name: string, id: nat, cats: set<string>)

  datatype Cmd = Cmd(name: string, id: nat, cats: set<string>, subs: Option<seq<Sub>>)

  datatype Table = Table(cmds: seq<Cmd>, cats: set<string>)

  // USER_COMMAND_BITS_COUNT; the last bit is reserved.
  const BITS: nat := 1024
  const RESERVED: nat := 1023

  ghost predicate IsName(n: string) { n != "" && Lower(n) == n && '|' !in n && Plain(n) }

  function SubsOf(cmd: Cmd): seq<Sub> { if cmd.subs.Some? then cmd.subs.value else [] }

  function SubIds(subs: seq<Sub>): set<nat> { set s | s in subs :: s.id }

  // Names are lower case and unique, the reserved bit belongs to no command, and no subcommand
  // shares its number with a command that can have first arguments.
  ghost predicate WellFormed(t: Table) {
    && (forall c :: c in t.cmds ==> IsName(c.name) && c.name[0] != '@' && c.id != RESERVED)
    && (forall c, d :: c in t.cmds && d in t.cmds && c.name == d.name ==> c == d)
    && (forall c, s :: c in t.cmds && s in SubsOf(c) ==> IsName(s.name) && s.id != RESERVED)
    && (forall c, s, r :: c in t.cmds && s in SubsOf(c) && r in SubsOf(c) && s.name == r.name ==> s == r)
    && (forall c, s, d :: c in t.cmds && s in SubsOf(c) && d in t.cmds && d.subs.None? ==> s.id != d.id)
    && (forall n :: n in t.cats ==> IsName(n) && n != "all")
  }

  function FindCmd(cmds: seq<Cmd>, name: string): (r: Option<Cmd>)
    ensures r.Some? ==> r.value in cmds && r.value.name == Lower(name)
    ensures r.None? ==> forall c :: c in cmds ==> c.name != Lower(name)
  {
    if cmds == [] then None
    else if cmds[0].name == Lower(name) then Some(cmds[0])
    else FindCmd(cmds[1..], name)
  }

  function FindSub(subs: seq<Sub>, name: string): (r: Option<Sub>)
    ensures r.Some? ==> r.value in subs && r.value.name == Lower(name)
    ensures r.None? ==> forall s :: s in subs ==> s.name != Lower(name)
  {
    if subs == [] then None
    else if subs[0].name == Lower(name) then Some(subs[0])
    else FindSub(subs[1..], name)
  }

  // The position of the first '|', or the length of the string.
  function Bar(s: string): (k: nat)
    ensures k <= |s| && '|' !in s[..k] && (k < |s| ==> s[k] == '|')
  {
    if s == "" || s[0] == '|' then 0
    else
      var k := Bar(s[1..]);
      assert s[..k + 1] == [s[0]] + s[1..][..k];
      k + 1
  }

  // The position of the last '|' (strrchr), for a string that has one.
  function LastBar(s: string): (k: nat)
    requires '|' in s
    ensures k < |s| && s[k] == '|' && '|' !in s[k + 1..]
  {
    if '|' in s[1..] then
      var k := LastBar(s[1..]);
      assert s[1..][k + 1..] == s[k + 2..];
      k + 1
    else
      assert s == [s[0]] + s[1..];
      0
  }

  datatype Found = Top(cmd: Cmd) | SubOf(cmd: Cmd, sub: Sub)

  // lookupCommandBySdsLogic: "name" or "name|subname", and nothing deeper.
  function LookupCommand(t: Table, s: string): Option<Found> {
    var k := Bar(s);
    var c := FindCmd(t.cmds, s[..k]);
    if c.None? then None
    else if k == |s| then Some(Top(c.value))
    else if '|' in s[k + 1..] || c.value.subs.None? then None
    else
      var r := FindSub(c.value.subs.value, s[k + 1..]);
      if r.None? then None else Some(SubOf(c.value, r.value))
  }

  function FullName(f: Found): string {
    match f
    case Top(c) => c.name
    case SubOf(c, s) => c.name + "|" + s.name
  }

  // ---------------------------------------------------------------------------------------------
  // Rules
  // ---------------------------------------------------------------------------------------------

  // What a rule speaks of: a command, a subcommand, a first argument of a command, a category.
  datatype Kind =
    | OnCommand(found: Found)
    | OnFirstArg(cmd: Cmd, arg: string)
    | OnCategory(cat: string)

  datatype Errno = ENOENT | EINVAL | ECHILD

  datatype Parsed =
    | AllCommands
    | NoCommands
    | Rule(allow: bool, kind: Kind)
    | Error(errno: Errno)
    | NotACommandRule

  // The branches of ACLSetSelector that concern commands.
  function Parse(t: Table, op: string): Parsed {
    var low := Lower(op);
    if low == "allcommands" || low == "+@all" then AllCommands
    else if low == "nocommands" || low == "-@all" then NoCommands
    else if op == "" || (op[0] != '+' && op[0] != '-') then NotACommandRule
    else if |op| > 1 && op[1] == '@' then
      if Lower(op[2..]) in t.cats then Rule(op[0] == '+', OnCategory(Lower(op[2..]))) else Error(ENOENT)
    else if op[0] == '-' || '|' !in op then
      var f := LookupCommand(t, op[1..]);
      if f.None? then Error(ENOENT) else Rule(op[0] == '+', OnCommand(f.value))
    else
      ParseBar(t, op[1..])
  }

  // The branch for "+name|sub": a subcommand if the command has any, else a first argument.
  function ParseBar(t: Table, name: string): Parsed
    requires '|' in name
  {
    var k := LastBar(name);
    var f := LookupCommand(t, name[..k]);
    var sub := name[k + 1..];
    if f.None? then Error(ENOENT)
    else if f.value.SubOf? then Error(ECHILD)
    else if sub == "" then Error(EINVAL)
    else if f.value.cmd.subs.Some? then
      var g := LookupCommand(t, name);
      if g.None? then Error(ENOENT) else Rule(true, OnCommand(g.value))
    else Rule(true, OnFirstArg(f.value.cmd, sub))
  }

  // The name under which a rule is kept.
  function NameOf(k: Kind): string {
    match k
    case OnCommand(f) => FullName(f)
    case OnFirstArg(c, arg) => c.name + "|" + Lower(arg)
    case OnCategory(cat) => "@" + cat
  }

  function TextOf(allow: bool, k: Kind): string { (if allow then "+" else "-") + NameOf(k) }

  ghost predicate WellFound(t: Table, f: Found) {
    f.cmd in t.cmds && (f.SubOf? ==> f.cmd.subs.Some? && f.sub in f.cmd.subs.value)
  }

  ghost predicate WellKind(t: Table, allow: bool, k: Kind) {
    match k
    case OnCommand(f) => WellFound(t, f)
    case OnFirstArg(c, arg) =>
      allow && c in t.cmds && c.subs.None? && arg != "" && '|' !in arg && Plain(arg)
    case OnCategory(cat) => cat in t.cats
  }

  // ---------------------------------------------------------------------------------------------
  // Facts about parsing
  // ---------------------------------------------------------------------------------------------

  lemma LowerBar(a: string, b: string)
    ensures Lower(a + "|" + b) == Lower(a) + "|" + Lower(b)
  {
    LowerConcat(a + "|", b);
    LowerConcat(a, "|");
    assert Lower("|") == "|";
  }

  lemma LookupIsWell(t: Table, s: string)
    requires LookupCommand(t, s).Some?
    ensures WellFound(t, LookupCommand(t, s).value)
    ensures FullName(LookupCommand(t, s).value) == Lower(s)
  {
    hide Lower, FindCmd, FindSub, Bar;
    var k := Bar(s);
    if k == |s| {
      assert s[..k] == s;
    } else {
      assert s == s[..k] + "|" + s[k + 1..];
      LowerBar(s[..k], s[k + 1..]);
    }
  }

  lemma LowerAt1(at: string, s: string)
    requires at == "@"
    ensures Lower(at + s) == at + Lower(s)
  {
    LowerConcat(at, s);
  }

  lemma TopIsWell(t: Table, s: string)
    requires LookupCommand(t, s).Some? && LookupCommand(t, s).value.Top?
    ensures LookupCommand(t, s).value.cmd in t.cmds && LookupCommand(t, s).value.cmd.name == Lower(s)
  {
    hide Lower;
    LookupIsWell(t, s);
  }

  lemma ParseBarIsWell(t: Table, name: string)
    requires '|' in name && ParseBar(t, name).Rule? && Plain(name)
    ensures ParseBar(t, name).allow && WellKind(t, true, ParseBar(t, name).kind)
    ensures NameOf(ParseBar(t, name).kind) == Lower(name)
  {
    hide Lower, WellFound, FullName, LookupCommand;
    var k := LastBar(name);
    TopIsWell(t, name[..k]);
    if ParseBar(t, name).kind.OnCommand? {
      LookupIsWell(t, name);
    } else {
      assert name == name[..k] + "|" + name[k + 1..];
      LowerBar(name[..k], name[k + 1..]);
    }
  }

  // A rule that was understood is kept under the lower-case form of what was given.
  lemma ParseIsWell(t: Table, op: string)
    requires Parse(t, op).Rule? && Plain(op)
    ensures op != "" && WellKind(t, Parse(t, op).allow, Parse(t, op).kind)
    ensures NameOf(Parse(t, op).kind) == Lower(op[1..])
  {
    hide Lower, WellFound, FullName, LookupCommand, ParseBar;
    assert op == [op[0]] + op[1..];
    if |op| > 1 && op[1] == '@' {
      assert op[1..] == "@" + op[2..];
      LowerAt1("@", op[2..]);
    } else if op[0] == '-' || '|' !in op {
      LookupIsWell(t, op[1..]);
    } else {
      ParseBarIsWell(t, op[1..]);
    }
  }

  // ---------------------------------------------------------------------------------------------
  // A kept rule means what it meant
  // ---------------------------------------------------------------------------------------------

  // First arguments are kept in lower case.
  function Canon(k: Kind): Kind {
    match k
    case OnFirstArg(c, arg) => OnFirstArg(c, Lower(arg))
    case _ => k
  }

  lemma {:induction false} BarIsAt(a: string, b: string)
    requires '|' !in a
    ensures Bar(a + "|" + b) == |a|
  {
    if a != "" {
      BarIsAt(a[1..], b);
      assert (a + "|" + b)[1..] == a[1..] + "|" + b;
    }
  }

  lemma {:induction false} LastBarIsAt(a: string, b: string)
    requires '|' !in b
    ensures '|' in a + "|" + b
    ensures LastBar(a + "|" + b) == |a|
  {
    var s := a + "|" + b;
    assert s[|a|] == '|';
    if a == "" {
      assert s[1..] == b;
    } else {
      LastBarIsAt(a[1..], b);
      assert s[1..] == a[1..] + "|" + b;
    }
  }

  lemma {:induction false} NoBar(s: string)
    requires '|' !in s
    ensures Bar(s) == |s|
  {
    if s != "" { NoBar(s[1..]); }
  }

  lemma LookupTop(t: Table, c: Cmd)
    requires WellFormed(t) && c in t.cmds
    ensures LookupCommand(t, c.name) == Some(Top(c))
  {
    NoBar(c.name);
    assert c.name[..|c.name|] == c.name;
  }

  lemma LookupSub(t: Table, c: Cmd, s: Sub)
    requires WellFormed(t) && WellFound(t, SubOf(c, s))
    ensures LookupCommand(t, c.name + "|" + s.name) == Some(SubOf(c, s))
  {
    var full := c.name + "|" + s.name;
    assert s in SubsOf(c);
    BarIsAt(c.name, s.name);
    assert full[..|c.name|] == c.name && full[|c.name| + 1..] == s.name;
  }

  lemma NameIsLower(t: Table, allow: bool, k: Kind)
    requires WellFormed(t) && WellKind(t, allow, k)
    ensures Lower(NameOf(k)) == NameOf(k) && NameOf(k) != ""
    ensures k.OnCategory? <==> NameOf(k)[0] == '@'
  {
    hide Lower;
    match k
    case OnCommand(Top(c)) =>
    case OnCommand(SubOf(c, s)) =>
      assert s in SubsOf(c);
      LowerBar(c.name, s.name);
    case OnFirstArg(c, arg) =>
      LowerBar(c.name, Lower(arg));
      LowerIdempotent(arg);
    case OnCategory(cat) =>
      LowerAt1("@", cat);
  }

  lemma TextIsLower(t: Table, allow: bool, k: Kind)
    requires WellFormed(t) && WellKind(t, allow, k)
    ensures Lower(TextOf(allow, k)) == TextOf(allow, k)
  {
    NameIsLower(t, allow, k);
    LowerConcat(if allow then "+" else "-", NameOf(k));
  }

  lemma ReparseBar(t: Table, k: Kind, name: string)
    requires WellFormed(t) && WellKind(t, true, k) && name == NameOf(k) && '|' in name && !k.OnCategory?
    ensures ParseBar(t, name) == Rule(true, Canon(k))
  {
    hide Lower, WellFormed, LookupCommand;
    match k {
      case OnCommand(Top(c)) => TopHasNoBar(t, c);
      case OnCommand(SubOf(c, s)) =>
        SubHasNoBar(t, c, s);
        LastBarIsAt(c.name, s.name);
        assert name[..|c.name|] == c.name && name[|c.name| + 1..] == s.name;
        LookupTop(t, c);
        LookupSub(t, c, s);
      case OnFirstArg(c, arg) =>
        LowerKeeps(arg);
        LastBarIsAt(c.name, Lower(arg));
        assert name[..|c.name|] == c.name && name[|c.name| + 1..] == Lower(arg);
        LookupTop(t, c);
    }
  }

  lemma TopHasNoBar(t: Table, c: Cmd)
    requires WellFormed(t) && c in t.cmds
    ensures '|' !in c.name && c.name != "" && c.name[0] != '@'
  {}

  lemma SubHasNoBar(t: Table, c: Cmd, s: Sub)
    requires WellFormed(t) && WellFound(t, SubOf(c, s))
    ensures '|' !in s.name && s.name != ""
  {
    assert s in SubsOf(c);
  }

  // Parsing the text of a rule gives the rule back.
  lemma Reparse(t: Table, allow: bool, k: Kind)
    requires WellFormed(t) && WellKind(t, allow, k)
    ensures Parse(t, TextOf(allow, k)) == Rule(allow, Canon(k))
  {
    hide Lower, WellFormed, LookupCommand, ParseBar;
    var op, name := TextOf(allow, k), NameOf(k);
    TextIsLower(t, allow, k);
    NameIsLower(t, allow, k);
    assert op[1..] == name && op[1] == name[0];
    match k {
      case OnCommand(Top(c)) =>
        TopHasNoBar(t, c);
        assert '|' !in op;
        LookupTop(t, c);
      case OnCommand(SubOf(c, s)) =>
        assert name[|c.name|] == '|' && op[|c.name| + 1] == '|';
        LookupSub(t, c, s);
        if allow { ReparseBar(t, k, name); }
      case OnFirstArg(c, arg) =>
        assert name[|c.name|] == '|' && op[|c.name| + 1] == '|';
        ReparseBar(t, k, name);
      case OnCategory(cat) =>
        assert op[2..] == cat;
        CategoryName(t, cat);
    }
  }

  lemma CategoryName(t: Table, cat: string)
    requires WellFormed(t) && cat in t.cats
    ensures Lower(cat) == cat && cat != "all"
    ensures "+" + ("@" + cat) != "+@all" && "-" + ("@" + cat) != "-@all"
  {
    assert ("+" + ("@" + cat))[2..] == cat && "+@all"[2..] == "all";
    assert ("-" + ("@" + cat))[2..] == cat && "-@all"[2..] == "all";
  }

  // The text of a rule is a token.
  lemma TextIsToken(t: Table, allow: bool, k: Kind)
    requires WellFormed(t) && WellKind(t, allow, k)
    ensures IsToken(TextOf(allow, k)) && Plain(TextOf(allow, k)) && TextOf(allow, k)[1..] == NameOf(k)
  {
    hide Lower;
    NameIsLower(t, allow, k);
    match k {
      case OnCommand(Top(c)) =>
      case OnCommand(SubOf(c, s)) => assert s in SubsOf(c);
      case OnFirstArg(c, arg) => LowerKeeps(arg);
      case OnCategory(cat) =>
    }
    assert Plain(NameOf(k));
  }
}
