// The role-list text format `role(priority)|role(priority)|...` used in the
// player files: the parser and the serialiser of logic/draft_logic.py.

module RoleGrammar {

  import opened Wrappers
  import opened Text
  import opened DraftTypes

  const Separator: char := '|'

  /** Reading of one `|`-separated part: with both parentheses, the stripped text
      before `(` and the integer between `(` and `)` (1 when that is not an
      integer); otherwise the stripped part with priority 1. */
  function ParsePart(raw: string): RolePriority
  {
    var part := Strip(raw);
    if '(' in part && ')' in part then
      var open := IndexOf(part, '(');
      var close := IndexOf(part, ')');
      var name := Strip(part[..open]);
      var priority := match ParseInt(Strip(Slice(part, open + 1, close)))
        case Some(p) => p
        case None => 1;
      RolePriority(name, priority)
    else
      RolePriority(part, 1)
  }

  /** The parts read one by one, in order. */
  function ParseParts(parts: seq<string>): (r: seq<RolePriority>)
    ensures |r| == |parts|
    ensures forall k :: 0 <= k < |parts| ==> r[k] == ParsePart(parts[k])
  {
    if |parts| == 0 then [] else ParseParts(parts[..|parts| - 1]) + [ParsePart(parts[|parts| - 1])]
  }

  /** What the parser returns for a whole role string: nothing for the empty
      string, otherwise one entry per `|`-separated part, in order. */
  function ParsedRoles(s: string): (r: seq<RolePriority>)
    ensures s == [] ==> r == []
    ensures s != [] ==> |r| == |Split(s, Separator)|
  {
    if s == [] then [] else ParseParts(Split(s, Separator))
  }

  function FormatRole(rp: RolePriority): string
  {
    rp.role + "(" + IntToString(rp.priority) + ")"
  }

  /** The entries formatted one by one, in order. */
  function FormatEntries(rs: seq<RolePriority>): (r: seq<string>)
    ensures |r| == |rs|
    ensures forall k :: 0 <= k < |rs| ==> r[k] == FormatRole(rs[k])
  {
    if |rs| == 0 then [] else FormatEntries(rs[..|rs| - 1]) + [FormatRole(rs[|rs| - 1])]
  }

  /** What the serialiser returns: `role(priority)` for each entry, joined by `|`. */
  function FormattedRoles(rs: seq<RolePriority>): string
  {
    Join(FormatEntries(rs), Separator)
  }

  /** The parser of the source: split on `|`, read each part, collect in order. */
  method ParseRolesWithPriority(rolesStr: string) returns (result: seq<RolePriority>)
    ensures result == ParsedRoles(rolesStr)
    ensures rolesStr == [] ==> result == []
    ensures rolesStr != [] ==> |result| == CountOf(rolesStr, Separator) + 1
  {
    if rolesStr == [] {
      return [];
    }
    var parts := Split(rolesStr, Separator);
    result := [];
    for i := 0 to |parts|
      invariant result == ParseParts(parts[..i])
    {
      assert parts[..i + 1][..i] == parts[..i];
      result := result + [ParsePart(parts[i])];
    }
    assert parts[..|parts|] == parts;
    SplitCount(rolesStr, Separator);
  }

  /** The serialiser of the source: format each entry, then join with `|`. */
  method RolesToString(roleList: seq<RolePriority>) returns (s: string)
    ensures s == FormattedRoles(roleList)
  {
    var parts: seq<string> := [];
    for i := 0 to |roleList|
      invariant parts == FormatEntries(roleList[..i])
    {
      assert roleList[..i + 1][..i] == roleList[..i];
      parts := parts + [FormatRole(roleList[i])];
    }
    assert roleList[..|roleList|] == roleList;
    s := Join(parts, Separator);
  }

  function CountOf(s: string, c: char): nat
  {
    if |s| == 0 then 0 else (if s[0] == c then 1 else 0) + CountOf(s[1..], c)
  }

  lemma {:induction false} CountOfConcat(a: string, b: string, c: char)
    ensures CountOf(a + b, c) == CountOf(a, c) + CountOf(b, c)
  {
    if |a| > 0 {
      assert (a + b)[1..] == a[1..] + b;
      CountOfConcat(a[1..], b, c);
    } else {
      assert a + b == b;
    }
  }

  lemma {:induction false} CountOfAbsent(s: string, c: char)
    requires c !in s
    ensures CountOf(s, c) == 0
  {
    if |s| > 0 {
      assert s[1..] <= s[1..] && forall k :: 0 <= k < |s[1..]| ==> s[1..][k] == s[k + 1];
      CountOfAbsent(s[1..], c);
    }
  }

  /** Python's split yields one part more than there are separators. */
  lemma {:induction false} SplitCount(s: string, c: char)
    ensures |Split(s, c)| == CountOf(s, c) + 1
    decreases |s|
  {
    if c in s {
      var i := IndexOf(s, c);
      assert s == s[..i] + ([c] + s[i + 1..]);
      CountOfConcat(s[..i], [c] + s[i + 1..], c);
      CountOfConcat([c], s[i + 1..], c);
      CountOfAbsent(s[..i], c);
      SplitCount(s[i + 1..], c);
    } else {
      CountOfAbsent(s, c);
    }
  }

  /** A role name the text format can carry unchanged. */
  predicate PlainRoleName(name: string)
  {
    Separator !in name && '(' !in name && ')' !in name && Trimmed(name)
  }

  /** Where the parentheses of a formatted entry are, and that it has no surrounding whitespace. */
  lemma FormatRoleShape(rp: RolePriority)
    requires PlainRoleName(rp.role)
    ensures var s := FormatRole(rp);
      && Trimmed(s) && '(' in s && ')' in s
      && IndexOf(s, '(') == |rp.role|
      && IndexOf(s, ')') == |rp.role| + 1 + |IntToString(rp.priority)|
  {
    var name := rp.role;
    var digits := IntToString(rp.priority);
    IntToStringChars(rp.priority, '(');
    IntToStringChars(rp.priority, ')');
    var s := FormatRole(rp);
    assert s[|s| - 1] == ')';
    assert |name| > 0 ==> s[0] == name[0];
    assert |name| == 0 ==> s[0] == '(';
    assert s == name + ['('] + (digits + ")");
    IndexOfAfterPrefix(name, '(', digits + ")");
    assert ')' !in name + "(" + digits;
    assert s == (name + "(" + digits) + [')'] + [];
    IndexOfAfterPrefix(name + "(" + digits, ')', []);
  }

  lemma ParsePartFormat(rp: RolePriority)
    requires PlainRoleName(rp.role)
    ensures ParsePart(FormatRole(rp)) == rp
  {
    var s := FormatRole(rp);
    var digits := IntToString(rp.priority);
    FormatRoleShape(rp);
    var open := IndexOf(s, '(');
    var close := IndexOf(s, ')');
    assert s[..open] == rp.role;
    assert Slice(s, open + 1, close) == digits;
    IntToStringChars(rp.priority, '(');
    ParseIntToString(rp.priority);
    assert Strip(s) == s;
  }

  lemma JoinNonEmpty(parts: seq<string>, sep: char)
    requires |parts| >= 1 && |parts[0]| > 0
    ensures Join(parts, sep) != []
  {
    if |parts| > 1 {
      assert Join(parts, sep)[0] == parts[0][0];
    }
  }

  /** Reading back what the serialiser wrote gives the same role list, for role
      names without `|`, `(`, `)` and without surrounding whitespace. */
  lemma RolesRoundTrip(rs: seq<RolePriority>)
    requires forall i :: 0 <= i < |rs| ==> PlainRoleName(rs[i].role)
    ensures ParsedRoles(FormattedRoles(rs)) == rs
  {
    var parts := FormatEntries(rs);
    if |rs| > 0 {
      EntriesWithoutSeparator(rs);
      JoinNonEmpty(parts, Separator);
      SplitJoin(parts, Separator);
      EntriesReadBack(rs);
    }
  }

  /** No formatted entry holds the separator. */
  lemma EntriesWithoutSeparator(rs: seq<RolePriority>)
    requires forall i :: 0 <= i < |rs| ==> PlainRoleName(rs[i].role)
    ensures forall i :: 0 <= i < |rs| ==> Separator !in FormatEntries(rs)[i]
  {
    forall i | 0 <= i < |rs|
      ensures Separator !in FormatEntries(rs)[i]
    {
      IntToStringChars(rs[i].priority, Separator);
    }
  }

  /** Each formatted entry reads back as itself. */
  lemma EntriesReadBack(rs: seq<RolePriority>)
    requires forall i :: 0 <= i < |rs| ==> PlainRoleName(rs[i].role)
    ensures ParseParts(FormatEntries(rs)) == rs
  {
    var back := ParseParts(FormatEntries(rs));
    forall i | 0 <= i < |rs|
      ensures back[i] == rs[i]
    {
      ParsePartFormat(rs[i]);
    }
  }
}
