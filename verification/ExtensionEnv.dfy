/**
The two parsers of extension.env in tee/go/tools/pkg/validate/checks.go: one fills a map and grades
two entries, the other keeps two variables. A file is the sequence of its lines.
*/
module ExtensionEnv {
  import opened Prelude
  import opened Hex

  const EXTENSION_ID := "EXTENSION_ID"
  const INSTRUCTION_SENDER := "INSTRUCTION_SENDER"

  /** unicode.IsSpace on the Latin-1 characters. */
  predicate IsSpace(c: char) {
    c == ' ' || '\t' <= c <= '\r' || c == '\U{0085}' || c == '\U{00A0}'
  }

  lemma SpacesAre(c: char)
    ensures IsSpace(c) <==> c in {'\t', '\n', '\U{000B}', '\U{000C}', '\r', ' ', '\U{0085}', '\U{00A0}'}
  {
  }

  function TrimLeft(s: string): string {
    if s != [] && IsSpace(s[0]) then TrimLeft(s[1..]) else s
  }

  function TrimSpace(s: string): string
    decreases |s|
  {
    if s != [] && IsSpace(s[|s| - 1]) then TrimSpace(s[..|s| - 1]) else TrimLeft(s)
  }

  /** strings.SplitN(s, "=", 2), if it yields two parts. */
  function SplitAtEquals(s: string): Option<(string, string)> {
    if s == [] then None
    else if s[0] == '=' then Some(([], s[1..]))
    else match SplitAtEquals(s[1..])
      case Some((before, after)) => Some(([s[0]] + before, after))
      case None => None
  }

  /** The assignment a line makes, if it makes one. */
  function Assignment(line: string): Option<(string, string)> {
    var l := TrimSpace(line);
    if l == "" || l[0] == '#' then None
    else match SplitAtEquals(l)
      case Some((key, value)) => Some((TrimSpace(key), TrimSpace(value)))
      case None => None
  }

  // ------------------------------------------------------------------------------------------
  // Which lines assign what.

  predicate Blank(s: string) {
    forall c <- s :: IsSpace(c)
  }

  /** Without blanks at either end. */
  predicate Tight(s: string) {
    s == "" || (!IsSpace(s[0]) && !IsSpace(s[|s| - 1]))
  }

  lemma {:induction false} TrimLeftOf(a: string, s: string)
    requires Blank(a) && (s == "" || !IsSpace(s[0]))
    ensures TrimLeft(a + s) == s
    decreases |a|
  {
    if a == "" {
      assert a + s == s;
    } else {
      assert (a + s)[1..] == a[1..] + s;
      TrimLeftOf(a[1..], s);
    }
  }

  /** Trimming removes the blanks on both sides and nothing else. */
  lemma {:induction false} TrimSpaceOf(a: string, s: string, b: string)
    requires Blank(a) && Tight(s) && Blank(b)
    ensures TrimSpace(a + s + b) == s
    decreases |a| + |b|
  {
    if b != "" {
      assert (a + s + b)[..|a + s + b| - 1] == a + s + b[..|b| - 1];
      TrimSpaceOf(a, s, b[..|b| - 1]);
    } else if s == "" && a != "" {
      assert (a + s + b)[..|a + s + b| - 1] == a[..|a| - 1] + s + b;
      TrimSpaceOf(a[..|a| - 1], s, b);
    } else {
      assert a + s + b == a + s;
      TrimLeftOf(a, s);
    }
  }

  /** What is not blank comes first in what is left. */
  lemma {:induction false} TrimSpaceFirst(a: string, s: string)
    requires Blank(a) && s != "" && !IsSpace(s[0])
    ensures TrimSpace(a + s) != "" && TrimSpace(a + s)[0] == s[0]
    decreases |s|
  {
    if IsSpace(s[|s| - 1]) {
      assert (a + s)[..|a + s| - 1] == a + s[..|s| - 1];
      TrimSpaceFirst(a, s[..|s| - 1]);
    } else {
      TrimLeftOf(a, s);
    }
  }

  lemma {:induction false} TrimSpaceShorter(s: string, c: char)
    requires c !in s
    ensures c !in TrimSpace(s)
    decreases |s|
  {
    if s != "" && IsSpace(s[|s| - 1]) {
      TrimSpaceShorter(s[..|s| - 1], c);
    } else {
      TrimLeftShorter(s, c);
    }
  }

  lemma {:induction false} TrimLeftShorter(s: string, c: char)
    requires c !in s
    ensures c !in TrimLeft(s)
  {
    if s != "" && IsSpace(s[0]) {
      TrimLeftShorter(s[1..], c);
    }
  }

  /** The split is made at the first equals sign. */
  lemma {:induction false} SplitAtFirst(before: string, after: string)
    requires '=' !in before
    ensures SplitAtEquals(before + "=" + after) == Some((before, after))
  {
    var s := before + "=" + after;
    if before == "" {
      assert s == "=" + after;
    } else {
      assert s[1..] == before[1..] + "=" + after;
      SplitAtFirst(before[1..], after);
      assert before == [before[0]] + before[1..] && s[0] == before[0] && before[0] in before;
    }
  }

  lemma {:induction false} NoSplit(s: string)
    requires '=' !in s
    ensures SplitAtEquals(s) == None
  {
    if s != "" {
      NoSplit(s[1..]);
    }
  }

  /** A line is trimmed as a whole, split, and its two parts are trimmed again. */
  lemma LineParts(a: string, left: string, right: string, b: string)
    requires Blank(a) && Blank(b) && Tight(left + "=" + right)
    requires '=' !in left && (left == "" || left[0] != '#')
    ensures Assignment(a + (left + "=" + right) + b) == Some((TrimSpace(left), TrimSpace(right)))
  {
    TrimSpaceOf(a, left + "=" + right, b);
    SplitAtFirst(left, right);
  }

  /** Blanks around a part disappear, as all of it does if there is nothing but blanks. */
  lemma PartTrims(a: string, s: string, b: string)
    requires Blank(a) && Tight(s) && Blank(b)
    ensures TrimSpace(if s == "" then "" else s + b) == s
    ensures TrimSpace(if s == "" then "" else a + s) == s
  {
    TrimSpaceOf("", s, b);
    TrimSpaceOf(a, s, "");
    assert "" + s + b == s + b && a + s + "" == a + s;
  }

  /** A line `key = value`, with any blanks around both, assigns exactly that; the value may contain further equals signs. */
  lemma LineAssigns(b0: string, key: string, b1: string, b2: string, value: string, b3: string)
    requires Blank(b0) && Blank(b1) && Blank(b2) && Blank(b3)
    requires Tight(key) && '=' !in key && (key == "" || key[0] != '#') && Tight(value)
    ensures Assignment(b0 + key + b1 + "=" + b2 + value + b3) == Some((key, value))
  {
    var left := if key == "" then "" else key + b1;
    var right := if value == "" then "" else b2 + value;
    var a := if key == "" then b0 + b1 else b0;
    var b := if value == "" then b2 + b3 else b3;
    assert b0 + key + b1 + "=" + b2 + value + b3 == a + (left + "=" + right) + b;
    LineParts(a, left, right, b);
    PartTrims("", key, b1);
    PartTrims(b2, value, "");
  }

  /** Comments, blank lines and lines without an equals sign assign nothing. */
  lemma LineIsIgnored(blanks: string, rest: string)
    requires Blank(blanks)
    ensures Assignment(blanks + "#" + rest) == None
    ensures Assignment(blanks) == None
    ensures '=' !in rest ==> Assignment(rest) == None
  {
    assert blanks + "#" + rest == blanks + ("#" + rest);
    TrimSpaceFirst(blanks, "#" + rest);
    assert blanks == blanks + "" + "";
    TrimSpaceOf(blanks, "", "");
    if '=' !in rest {
      TrimSpaceShorter(rest, '=');
      NoSplit(TrimSpace(rest));
    }
  }

  /** v is the value of the last line that assigns to key. */
  ghost predicate IsLastAssigned(lines: seq<string>, key: string, v: string) {
    exists i :: 0 <= i < |lines| && Assignment(lines[i]) == Some((key, v)) && NotAssigned(lines[i + 1..], key)
  }

  ghost predicate NotAssigned(lines: seq<string>, key: string) {
    forall i :: 0 <= i < |lines| ==> Assignment(lines[i]).None? || Assignment(lines[i]).value.0 != key
  }

  /** What a parser remembers of a key after some lines: the last value, if any. */
  ghost predicate Remembers(lines: seq<string>, key: string, v: Option<string>) {
    if v.Some? then IsLastAssigned(lines, key, v.value) else NotAssigned(lines, key)
  }

  /** Reading one more line changes what is remembered only if the line assigns to the key. */
  lemma RemembersNext(lines: seq<string>, key: string, v: Option<string>, line: string)
    requires Remembers(lines, key, v)
    ensures var a := Assignment(line);
            Remembers(lines + [line], key, if a.Some? && a.value.0 == key then Some(a.value.1) else v)
  {
    var more := lines + [line];
    var a := Assignment(line);
    if a.Some? && a.value.0 == key {
      assert more[|lines|] == line && more[|lines| + 1..] == [];
    } else if v.Some? {
      var i :| 0 <= i < |lines| && Assignment(lines[i]) == Some((key, v.value)) && NotAssigned(lines[i + 1..], key);
      assert more[i] == lines[i] && more[i + 1..] == lines[i + 1..] + [line];
    }
  }

  /** No line that assigns to the key comes after the last one. */
  lemma NoneLater(lines: seq<string>, key: string, i: int, k: int)
    requires 0 <= i < |lines| && 0 <= k < |lines| && NotAssigned(lines[i + 1..], key)
    requires Assignment(lines[k]).Some? && Assignment(lines[k]).value.0 == key
    ensures k <= i
  {
    assert forall n :: i + 1 <= n < |lines| ==> lines[n] == lines[i + 1..][n - i - 1];
  }

  /** There is only one last value. */
  lemma RemembersOne(lines: seq<string>, key: string, v: Option<string>, w: Option<string>)
    requires Remembers(lines, key, v) && Remembers(lines, key, w)
    ensures v == w
  {
    if v.Some? && w.Some? {
      var i :| 0 <= i < |lines| && Assignment(lines[i]) == Some((key, v.value)) && NotAssigned(lines[i + 1..], key);
      var j :| 0 <= j < |lines| && Assignment(lines[j]) == Some((key, w.value)) && NotAssigned(lines[j + 1..], key);
      NoneLater(lines, key, i, j);
      NoneLater(lines, key, j, i);
    }
  }

  // ------------------------------------------------------------------------------------------

  datatype Grade = Pass | NotFound | BadFormat

  function Graded(v: Option<string>, digits: nat): Grade {
    if v.None? then NotFound else if IsHexOf(v.value, digits) then Pass else BadFormat
  }

  /** The grade a key deserves: the value last assigned to it has the format, or it has not, or there is none. */
  ghost predicate IsGrade(lines: seq<string>, key: string, digits: nat, g: Grade) {
    match g
    case Pass => exists v :: IsLastAssigned(lines, key, v) && IsHexOf(v, digits)
    case BadFormat => exists v :: IsLastAssigned(lines, key, v) && !IsHexOf(v, digits)
    case NotFound => NotAssigned(lines, key)
  }

  /** The value last assigned to a key, or the empty string. */
  ghost predicate IsValue(lines: seq<string>, key: string, s: string) {
    IsLastAssigned(lines, key, s) || (NotAssigned(lines, key) && s == "")
  }

  function Lookup(vars: map<string, string>, key: string): Option<string> {
    if key in vars then Some(vars[key]) else None
  }

  /** CheckExtensionEnvFormat on an existing file. */
  method CheckExtensionEnvFormat(lines: seq<string>) returns (sender: Grade, extension: Grade)
    ensures IsGrade(lines, INSTRUCTION_SENDER, 40, sender)
    ensures IsGrade(lines, EXTENSION_ID, 64, extension)
  {
    var vars: map<string, string> := map[];
    for i := 0 to |lines|
      invariant Remembers(lines[..i], INSTRUCTION_SENDER, Lookup(vars, INSTRUCTION_SENDER))
      invariant Remembers(lines[..i], EXTENSION_ID, Lookup(vars, EXTENSION_ID))
    {
      RemembersNext(lines[..i], INSTRUCTION_SENDER, Lookup(vars, INSTRUCTION_SENDER), lines[i]);
      RemembersNext(lines[..i], EXTENSION_ID, Lookup(vars, EXTENSION_ID), lines[i]);
      assert lines[..i + 1] == lines[..i] + [lines[i]];
      var assignment := Assignment(lines[i]);
      if assignment.Some? {
        vars := vars[assignment.value.0 := assignment.value.1];
      }
    }
    assert lines[..|lines|] == lines;
    sender := Graded(Lookup(vars, INSTRUCTION_SENDER), 40);
    extension := Graded(Lookup(vars, EXTENSION_ID), 64);
  }

  function OrEmpty(v: Option<string>): string {
    if v.Some? then v.value else ""
  }

  /** parseExtensionEnv on an existing file. */
  method ParseExtensionEnv(lines: seq<string>) returns (extensionId: string, sender: string)
    ensures IsValue(lines, INSTRUCTION_SENDER, sender)
    ensures IsValue(lines, EXTENSION_ID, extensionId)
  {
    extensionId, sender := "", "";
    ghost var lastId: Option<string>, lastSender: Option<string> := None, None;
    for i := 0 to |lines|
      invariant Remembers(lines[..i], INSTRUCTION_SENDER, lastSender) && sender == OrEmpty(lastSender)
      invariant Remembers(lines[..i], EXTENSION_ID, lastId) && extensionId == OrEmpty(lastId)
    {
      RemembersNext(lines[..i], INSTRUCTION_SENDER, lastSender, lines[i]);
      RemembersNext(lines[..i], EXTENSION_ID, lastId, lines[i]);
      assert lines[..i + 1] == lines[..i] + [lines[i]];
      var assignment := Assignment(lines[i]);
      if assignment.None? {
        continue;
      }
      var (key, val) := assignment.value;
      if key == EXTENSION_ID {
        extensionId, lastId := val, Some(val);
      } else if key == INSTRUCTION_SENDER {
        sender, lastSender := val, Some(val);
      }
    }
    assert lines[..|lines|] == lines;
  }

  /**
  For every existing file: the check passes both entries exactly when both values that the other
  parser returns have the right format. A missing key and an empty value look alike there, and
  neither has the format.
  */
  lemma ParsersAgree(lines: seq<string>, senderGrade: Grade, extensionGrade: Grade, extensionId: string, sender: string)
    requires IsGrade(lines, INSTRUCTION_SENDER, 40, senderGrade) && IsGrade(lines, EXTENSION_ID, 64, extensionGrade)
    requires IsValue(lines, INSTRUCTION_SENDER, sender) && IsValue(lines, EXTENSION_ID, extensionId)
    ensures senderGrade == Pass && extensionGrade == Pass <==> IsHexOf(sender, 40) && IsHexOf(extensionId, 64)
  {
    GradeOfValue(lines, INSTRUCTION_SENDER, 40, senderGrade, sender);
    GradeOfValue(lines, EXTENSION_ID, 64, extensionGrade, extensionId);
  }

  lemma GradeOfValue(lines: seq<string>, key: string, digits: nat, g: Grade, s: string)
    requires IsGrade(lines, key, digits, g) && IsValue(lines, key, s)
    ensures g == Pass <==> IsHexOf(s, digits)
  {
    if !g.NotFound? {
      var v :| IsLastAssigned(lines, key, v) && (g == Pass <==> IsHexOf(v, digits));
      RemembersOne(lines, key, Some(v), if NotAssigned(lines, key) then None else Some(s));
    } else if IsLastAssigned(lines, key, s) {
      RemembersOne(lines, key, None, Some(s));
    }
  }
}
