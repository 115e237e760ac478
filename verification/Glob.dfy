/** Table-name patterns in which every `*` stands for any text, and the permissions that use them. */
module Glob {
  import opened Sequences
  import opened Texts

  // ---------- What a pattern means ----------

  function Stars(pattern: string): nat {
    if pattern == "" then 0 else Stars(pattern[1..]) + if pattern[0] == '*' then 1 else 0
  }

  /** The pattern with its stars replaced, one after the other, by `fills`. */
  function Substitute(pattern: string, fills: seq<string>): string
    requires |fills| == Stars(pattern)
  {
    if pattern == "" then ""
    else if pattern[0] == '*' then fills[0] + Substitute(pattern[1..], fills[1..])
    else [pattern[0]] + Substitute(pattern[1..], fills)
  }

  ghost predicate Filled(pattern: string, fills: seq<string>, text: string) {
    |fills| == Stars(pattern) && Substitute(pattern, fills) == text
  }

  ghost predicate Fits(pattern: string, text: string) {
    exists fills :: Filled(pattern, fills, text)
  }

  // ---------- The same, piece by piece ----------

  /** `text` is the pieces in this order, each after some text. */
  ghost predicate Follows(pieces: seq<string>, text: string)
    decreases pieces
  {
    if pieces == [] then text == "" else exists k: nat :: PieceAt(pieces, text, k)
  }

  ghost predicate PieceAt(pieces: seq<string>, text: string, k: nat)
    requires pieces != []
    decreases pieces, 0
  {
    OccursAt(text, pieces[0], k) && Follows(pieces[1..], text[k + |pieces[0]|..])
  }

  lemma {:induction false} FirstPlace(pieces: seq<string>, text: string) returns (k: nat)
    requires pieces != [] && Follows(pieces, text)
    ensures PieceAt(pieces, text, k)
  {
    k :| PieceAt(pieces, text, k);
  }

  ghost predicate Pieces(parts: seq<string>, text: string)
    requires parts != []
  {
    StartsWith(text, parts[0]) && Follows(parts[1..], text[|parts[0]|..])
  }

  lemma {:induction false} FollowsFromFills(pattern: string, fills: seq<string>)
    requires |fills| == Stars(pattern)
    ensures Pieces(Split(pattern, '*'), Substitute(pattern, fills))
  {
    var parts, text := Split(pattern, '*'), Substitute(pattern, fills);
    if pattern == "" {
    } else if pattern[0] == '*' {
      FollowsFromFills(pattern[1..], fills[1..]);
      var rest, after := Split(pattern[1..], '*'), Substitute(pattern[1..], fills[1..]);
      assert parts[1..] == rest;
      assert text[0..] == text && text[|fills[0]|..] == after;
      assert text[|fills[0]| + |rest[0]|..] == after[|rest[0]|..];
      assert PieceAt(rest, text, |fills[0]|);
    } else {
      FollowsFromFills(pattern[1..], fills);
      var rest, after := Split(pattern[1..], '*'), Substitute(pattern[1..], fills);
      assert parts[0] == [pattern[0]] + rest[0] && parts[1..] == rest[1..];
      assert text[|parts[0]|..] == after[|rest[0]|..];
    }
  }

  lemma {:induction false} FillsFromPieces(pattern: string, text: string) returns (fills: seq<string>)
    requires Pieces(Split(pattern, '*'), text)
    ensures Filled(pattern, fills, text)
  {
    var parts := Split(pattern, '*');
    if pattern == "" {
      fills := [];
    } else if pattern[0] == '*' {
      var rest := Split(pattern[1..], '*');
      assert parts[1..] == rest && text[0..] == text;
      var k := FirstPlace(rest, text);
      assert text[k..][|rest[0]|..] == text[k + |rest[0]|..];
      var more := FillsFromPieces(pattern[1..], text[k..]);
      fills := [text[..k]] + more;
      assert fills[1..] == more && text == text[..k] + text[k..];
    } else {
      var rest := Split(pattern[1..], '*');
      assert parts[0] == [pattern[0]] + rest[0] && parts[1..] == rest[1..];
      assert text[..|parts[0]|][0] == text[0] && text[1..][..|rest[0]|] == text[..|parts[0]|][1..];
      assert text[1..][|rest[0]|..] == text[|parts[0]|..];
      fills := FillsFromPieces(pattern[1..], text[1..]);
      assert text == [text[0]] + text[1..];
    }
  }

  lemma {:induction false} FitsByPieces(pattern: string, text: string)
    ensures Fits(pattern, text) <==> Pieces(Split(pattern, '*'), text)
  {
    if Fits(pattern, text) {
      var fills :| Filled(pattern, fills, text);
      FollowsFromFills(pattern, fills);
    }
    if Pieces(Split(pattern, '*'), text) {
      var fills := FillsFromPieces(pattern, text);
      assert Filled(pattern, fills, text);
    }
  }

  // ---------- Why taking the leftmost occurrence is enough ----------

  lemma {:induction false} DropTwice(text: string, i: nat, j: nat)
    requires i + j <= |text|
    ensures text[i..][j..] == text[i + j..]
  {
  }

  /** More text in front does no harm, as long as a piece is still to come. */
  lemma {:induction false} MoreInFront(pieces: seq<string>, text: string, i: nat, j: nat)
    requires pieces != [] && i <= j <= |text| && Follows(pieces, text[j..])
    ensures Follows(pieces, text[i..])
  {
    var k := FirstPlace(pieces, text[j..]);
    var before, n := j - i, |pieces[0]|;
    DropTwice(text, j, k);
    DropTwice(text, j, k + n);
    DropTwice(text, i, before + k);
    DropTwice(text, i, before + k + n);
    assert PieceAt(pieces, text[i..], before + k);
  }

  lemma {:induction false} LeftmostWorks(pieces: seq<string>, text: string)
    requires |pieces| > 1 && Follows(pieces, text)
    ensures var at := Find(text, pieces[0]); at.Some? && Follows(pieces[1..], text[at.value + |pieces[0]|..])
  {
    var k := FirstPlace(pieces, text);
    assert OccursAt(text, pieces[0], k);
    var at, n := Find(text, pieces[0]).value, |pieces[0]|;
    MoreInFront(pieces[1..], text, at + n, k + n);
  }

  lemma {:induction false} Leftmost(pieces: seq<string>, text: string)
    requires |pieces| > 1
    ensures var at := Find(text, pieces[0]);
      Follows(pieces, text) <==> at.Some? && Follows(pieces[1..], text[at.value + |pieces[0]|..])
  {
    var at := Find(text, pieces[0]);
    if Follows(pieces, text) { LeftmostWorks(pieces, text); }
    if at.Some? && Follows(pieces[1..], text[at.value + |pieces[0]|..]) { AnyPlaceWorks(pieces, text, at.value); }
  }

  lemma {:induction false} AnyPlaceWorks(pieces: seq<string>, text: string, k: nat)
    requires pieces != [] && PieceAt(pieces, text, k)
    ensures Follows(pieces, text)
  {
  }

  lemma {:induction false} EmptyPiece(pieces: seq<string>, text: string)
    requires |pieces| > 1 && pieces[0] == ""
    ensures Follows(pieces, text) <==> Follows(pieces[1..], text)
  {
    Leftmost(pieces, text);
    assert OccursAt(text, "", 0) && text[0..] == text;
  }

  lemma {:induction false} LastPiece(part: string, text: string)
    ensures Follows([part], text) <==> EndsWith(text, part)
  {
    if Follows([part], text) {
      var k := FirstPlace([part], text);
      assert text[k + |part|..] == "" by { assert [part][1..] == []; }
    }
    if EndsWith(text, part) {
      assert PieceAt([part], text, |text| - |part|);
    }
  }

  /** The greedy matcher accepts a text exactly when some texts for the stars turn the pattern
      into it. */
  method PatternMatches(pattern: string, table: string) returns (matches: bool)
    ensures matches <==> Fits(pattern, table)
  {
    FitsByPieces(pattern, table);
    if pattern == "*" {
      assert Filled("*", [table], table) by { assert "*"[1..] == "" && table + "" == table; }
      return true;
    }
    var parts := Split(pattern, '*');
    if |parts| == 1 {
      WholePattern(pattern, table);
      return pattern == table;
    }
    var remaining := table;
    var i := 0;
    while i < |parts|
      invariant 0 <= i <= |parts|
      invariant i == 0 ==> remaining == table
      invariant 0 < i < |parts| ==> (Fits(pattern, table) <==> Follows(parts[i..], remaining))
      invariant i == |parts| ==> Fits(pattern, table)
    {
      var part := parts[i];
      if i > 0 { StepFacts(parts, i, remaining); }
      if part == "" {
      } else if i == 0 {
        if !StartsWith(remaining, part) { return false; }
        remaining := remaining[|part|..];
      } else if i == |parts| - 1 {
        if !EndsWith(remaining, part) { return false; }
        remaining := "";
      } else {
        var at := Find(remaining, part);
        if at.None? { return false; }
        remaining := remaining[at.value + |part|..];
      }
      i := i + 1;
    }
    return true;
  }

  lemma {:induction false} WholePattern(pattern: string, text: string)
    requires |Split(pattern, '*')| == 1
    ensures Pieces(Split(pattern, '*'), text) <==> pattern == text
  {
    JoinSplit(pattern, '*');
  }

  lemma {:induction false} StepFacts(parts: seq<string>, i: nat, text: string)
    requires 0 < i < |parts|
    ensures i == |parts| - 1 ==> (Follows(parts[i..], text) <==> EndsWith(text, parts[i]))
    ensures i < |parts| - 1 && parts[i] == "" ==> (Follows(parts[i..], text) <==> Follows(parts[i + 1..], text))
    ensures i < |parts| - 1 ==>
      var at := Find(text, parts[i]);
      Follows(parts[i..], text) <==> at.Some? && Follows(parts[i + 1..], text[at.value + |parts[i]|..])
  {
    if i == |parts| - 1 {
      assert parts[i..] == [parts[i]];
      LastPiece(parts[i], text);
    } else {
      assert parts[i..][1..] == parts[i + 1..];
      Leftmost(parts[i..], text);
      if parts[i] == "" { EmptyPiece(parts[i..], text); }
    }
  }

  // ---------- Permissions ----------

  datatype Permission =
    | ReadTable(table: string) | WriteTable(table: string)
    | ExecuteSql | ManagePipelines | ManageConnections | Admin

  datatype Role = Role(name: string, permissions: seq<Permission>)

  /** A table permission is granted for a pattern and required for a table. */
  ghost predicate Covers(granted: Permission, required: Permission) {
    || granted == Admin
    || (granted.ReadTable? && required.ReadTable? && Fits(granted.table, required.table))
    || (granted.WriteTable? && required.WriteTable? && Fits(granted.table, required.table))
    || (granted == required && !required.ReadTable? && !required.WriteTable?)
  }

  /** An administrator may do everything. A table permission covers only the same kind of access, `*` covers
      every table, and a pattern without a star only the table of that name. Any other permission covers
      only itself. */
  lemma {:induction false} CoversLaws(pattern: string, table: string, other: Permission, required: Permission)
    ensures Covers(Admin, required)
    ensures !Covers(ReadTable(pattern), WriteTable(table)) && !Covers(WriteTable(pattern), ReadTable(table))
    ensures Covers(ReadTable("*"), ReadTable(table)) && Covers(WriteTable("*"), WriteTable(table))
    ensures '*' !in pattern ==>
              (Covers(ReadTable(pattern), ReadTable(table)) <==> pattern == table) &&
              (Covers(WriteTable(pattern), WriteTable(table)) <==> pattern == table)
    ensures other.ExecuteSql? || other.ManagePipelines? || other.ManageConnections? ==>
              (Covers(other, required) <==> other == required)
    ensures required == Admin ==> (Covers(other, required) <==> other == Admin)
  {
    assert Filled("*", [table], table) by { assert "*"[1..] == "" && table + "" == table; }
    if '*' !in pattern {
      SplitWhole(pattern, '*');
      FitsByPieces(pattern, table);
      WholePattern(pattern, table);
    }
  }

  /** The first role of this name; later roles of the same name are never consulted. */
  function RoleNamed(roles: seq<Role>, name: string): (role: Option<Role>)
    ensures role.Some? ==> role.value in roles && role.value.name == name
    ensures role.None? ==> forall r :: r in roles ==> r.name != name
  {
    if roles == [] then None
    else if roles[0].name == name then Some(roles[0])
    else RoleNamed(roles[1..], name)
  }

  ghost predicate Holds(claimed: seq<string>, roles: seq<Role>, p: Permission) {
    exists name :: name in claimed && RoleNamed(roles, name).Some? && p in RoleNamed(roles, name).value.permissions
  }

  function Collect(claimed: seq<string>, roles: seq<Role>): (ps: seq<Permission>)
    ensures forall p :: p in ps <==> Holds(claimed, roles, p)
  {
    if claimed == [] then []
    else
      var rest := Collect(claimed[1..], roles);
      assert forall name :: name in claimed <==> name == claimed[0] || name in claimed[1..];
      match RoleNamed(roles, claimed[0])
      case None => rest
      case Some(role) => role.permissions + rest
  }

  /** Access is given exactly when some permission held through the claimed roles covers it. */
  method CheckPermission(claimed: seq<string>, required: Permission, roles: seq<Role>) returns (allowed: bool)
    ensures allowed <==> exists p :: Holds(claimed, roles, p) && Covers(p, required)
  {
    var held := Collect(claimed, roles);
    if Admin in held {
      assert Holds(claimed, roles, Admin) && Covers(Admin, required);
      return true;
    }
    for i := 0 to |held|
      invariant forall k :: 0 <= k < i ==> !Covers(held[k], required)
    {
      var p := held[i];
      if (p.ReadTable? && required.ReadTable?) || (p.WriteTable? && required.WriteTable?) {
        var fits := PatternMatches(p.table, required.table);
        if fits {
          assert Holds(claimed, roles, p) && Covers(p, required);
          return true;
        }
      } else if p == required && !p.ReadTable? && !p.WriteTable? {
        assert Holds(claimed, roles, p) && Covers(p, required);
        return true;
      }
    }
    return false;
  }
}
