/**
 _build_safe_update: an UPDATE statement with one numbered placeholder per column and one more
 for the row's id, proved to overwrite exactly the given columns of exactly the row asked for.
 */
module SafeUpdate {
  import opened Options

  type Row = map<string, string>

  datatype Assignment = Assignment(col: string, place: nat)

  datatype Built =
    | Unsafe(col: string)
    | Update(sets: seq<Assignment>, idColumn: string, wherePlace: nat, args: seq<string>)

  predicate Letter(c: char) { 'a' <= c <= 'z' || 'A' <= c <= 'Z' || c == '_' }

  predicate Identifier(s: string) {
    s != "" && Letter(s[0]) && forall i | 0 <= i < |s| :: Letter(s[i]) || '0' <= s[i] <= '9'
  }

  /** The pattern's end anchor also matches just before a final newline. */
  predicate SafeColumn(s: string) {
    Identifier(s) || (s != "" && s[|s| - 1] == '\n' && Identifier(s[..|s| - 1]))
  }

  const LOWER: set<char> := {
    'a', 'b', 'c', 'd', 'e', 'f', 'g', 'h', 'i', 'j', 'k', 'l', 'm', 'n', 'o', 'p', 'q', 'r', 's', 't', 'u',
    'v', 'w', 'x', 'y', 'z'}

  const UPPER: set<char> := {
    'A', 'B', 'C', 'D', 'E', 'F', 'G', 'H', 'I', 'J', 'K', 'L', 'M', 'N', 'O', 'P', 'Q', 'R', 'S', 'T', 'U',
    'V', 'W', 'X', 'Y', 'Z'}

  const LETTERS: set<char> := LOWER + UPPER + {'_'}

  const DIGITS: set<char> := {'0', '1', '2', '3', '4', '5', '6', '7', '8', '9'}

  /** A letter, then letters and digits. */
  ghost predicate NamePattern(s: string) {
    s != "" && s[0] in LETTERS && forall c | c in s :: c in LETTERS || c in DIGITS
  }

  lemma LowerIs(c: char)
    ensures 'a' <= c <= 'm' ==> c in LOWER
    ensures 'n' <= c <= 'z' ==> c in LOWER
    ensures c in LOWER ==> 'a' <= c <= 'z'
  {
  }

  lemma UpperIs(c: char)
    ensures 'A' <= c <= 'M' ==> c in UPPER
    ensures 'N' <= c <= 'Z' ==> c in UPPER
    ensures c in UPPER ==> 'A' <= c <= 'Z'
  {
  }

  lemma LetterIs(c: char)
    ensures Letter(c) <==> c in LETTERS
    ensures '0' <= c <= '9' <==> c in DIGITS
  {
    LowerIs(c);
    UpperIs(c);
  }

  lemma IdentifierIs(t: string)
    ensures Identifier(t) <==> NamePattern(t)
  {
    forall c: char ensures (Letter(c) <==> c in LETTERS) && ('0' <= c <= '9' <==> c in DIGITS) { LetterIs(c); }
    assert Identifier(t) ==> forall c | c in t :: Letter(c) || '0' <= c <= '9';
  }

  /** A name with one newline behind it. */
  ghost predicate NameLine(s: string) {
    exists t :: s == t + "\n" && NamePattern(t)
  }

  lemma NameLineIs(s: string)
    requires s != ""
    ensures NameLine(s) <==> s[|s| - 1] == '\n' && NamePattern(s[..|s| - 1])
  {
    var init := s[..|s| - 1];
    assert s[|s| - 1] == '\n' ==> s == init + "\n";
    forall t | s == t + "\n" ensures t == init {}
  }

  /** The column names let through are the pattern's names, each perhaps with one newline behind it. */
  lemma SafeColumnIff(s: string)
    ensures SafeColumn(s) <==> NamePattern(s) || NameLine(s)
  {
    IdentifierIs(s);
    if s != "" {
      IdentifierIs(s[..|s| - 1]);
      NameLineIs(s);
    }
  }

  /** What the SET list does to a row it applies to. */
  function Assigned(sets: seq<Assignment>, args: seq<string>, row: Row): Row
    requires forall a | a in sets :: 1 <= a.place <= |args|
  {
    if sets == [] then row
    else
      var last := sets[|sets| - 1];
      Assigned(sets[..|sets| - 1], args, row)[last.col := args[last.place - 1]]
  }

  ghost predicate WellPlaced(u: Built)
    requires u.Update?
  {
    (forall a | a in u.sets :: 1 <= a.place <= |u.args|) && 1 <= u.wherePlace <= |u.args|
  }

  /**
   The statement on a row of its table. The database refuses it, whatever the row, if the SET list
   is empty or it names a column the table does not have.
   */
  ghost function Executed(u: Built, row: Row): Option<Row>
    requires u.Update? && WellPlaced(u)
  {
    if u.sets == [] || u.idColumn !in row || exists a :: a in u.sets && a.col !in row then None
    else if row[u.idColumn] == u.args[u.wherePlace - 1] then Some(Assigned(u.sets, u.args, row))
    else Some(row)
  }

  predicate Names(filtered: seq<(string, string)>, c: string) {
    exists i | 0 <= i < |filtered| :: filtered[i].0 == c
  }

  /** Columns to set are given, and the table has them all. */
  predicate Executable(filtered: seq<(string, string)>, idColumn: string, row: Row) {
    filtered != [] && idColumn in row && forall i | 0 <= i < |filtered| :: filtered[i].0 in row
  }

  /** new_ is row with the given columns set and every other column as it was. */
  ghost predicate Overwrites(filtered: seq<(string, string)>, row: Row, new_: Row) {
    && (forall c :: c in new_ <==> c in row || Names(filtered, c))
    && (forall i | 0 <= i < |filtered| :: filtered[i].0 in new_ && new_[filtered[i].0] == filtered[i].1)
    && (forall c | c in row && !Names(filtered, c) :: new_[c] == row[c])
  }

  lemma OverwriteOneMore(filtered: seq<(string, string)>, last: (string, string), row: Row, mid: Row)
    requires Overwrites(filtered, row, mid) && !Names(filtered, last.0)
    ensures Overwrites(filtered + [last], row, mid[last.0 := last.1])
  {
    var all, after := filtered + [last], mid[last.0 := last.1];
    forall c
      ensures Names(all, c) <==> Names(filtered, c) || c == last.0
    {
      if Names(filtered, c) {
        var i :| 0 <= i < |filtered| && filtered[i].0 == c;
        assert all[i].0 == c;
      }
      assert all[|filtered|] == last;
    }
    forall i | 0 <= i < |all|
      ensures all[i].0 in after && after[all[i].0] == all[i].1
    {
      if i < |filtered| {
        assert all[i] == filtered[i];
      }
    }
  }

  lemma ColumnsOf(filtered: seq<(string, string)>, sets: seq<Assignment>, row: Row)
    requires |sets| == |filtered| && forall i | 0 <= i < |sets| :: sets[i].col == filtered[i].0
    ensures (exists a :: a in sets && a.col !in row) <==> exists i | 0 <= i < |filtered| :: filtered[i].0 !in row
  {
    if i :| 0 <= i < |filtered| && filtered[i].0 !in row {
      assert sets[i] in sets && sets[i].col !in row;
    }
  }

  lemma {:induction false} AssignedOverwrites(
      filtered: seq<(string, string)>, sets: seq<Assignment>, args: seq<string>, row: Row)
    requires forall i, j | 0 <= i < j < |filtered| :: filtered[i].0 != filtered[j].0
    requires |sets| == |filtered| <= |args|
    requires forall i | 0 <= i < |sets| :: sets[i] == Assignment(filtered[i].0, i + 1) && args[i] == filtered[i].1
    ensures Overwrites(filtered, row, Assigned(sets, args, row))
    decreases |sets|
  {
    if sets != [] {
      var k := |sets| - 1;
      AssignedOverwrites(filtered[..k], sets[..k], args, row);
      OverwriteOneMore(filtered[..k], filtered[k], row, Assigned(sets[..k], args, row));
      assert filtered[..k] + [filtered[k]] == filtered;
    }
  }

  method BuildSafeUpdate(filtered: seq<(string, string)>, idColumn: string, idValue: string) returns (u: Built)
    requires forall i, j | 0 <= i < j < |filtered| :: filtered[i].0 != filtered[j].0
    ensures u.Unsafe? <==> exists i | 0 <= i < |filtered| :: !SafeColumn(filtered[i].0)
    ensures u.Unsafe? ==> !SafeColumn(u.col) && Names(filtered, u.col)
    ensures u.Update? ==> WellPlaced(u) && forall row ::
      if !Executable(filtered, idColumn, row) then Executed(u, row) == None
      else if row[idColumn] != idValue then Executed(u, row) == Some(row)
      else && Executed(u, row).Some? && Executed(u, row).value.Keys == row.Keys
           && Overwrites(filtered, row, Executed(u, row).value)
  {
    var sets: seq<Assignment> := [];
    var args: seq<string> := [];
    for i := 0 to |filtered|
      invariant |sets| == |args| == i
      invariant forall j | 0 <= j < i :: SafeColumn(filtered[j].0)
      invariant forall j | 0 <= j < i :: sets[j] == Assignment(filtered[j].0, j + 1) && args[j] == filtered[j].1
    {
      if !SafeColumn(filtered[i].0) {
        return Unsafe(filtered[i].0);
      }
      sets := sets + [Assignment(filtered[i].0, i + 1)];
      args := args + [filtered[i].1];
    }
    args := args + [idValue];
    u := Update(sets, idColumn, |args|, args);
    forall row
      ensures (exists a :: a in sets && a.col !in row) <==> exists i | 0 <= i < |filtered| :: filtered[i].0 !in row
      ensures Overwrites(filtered, row, Assigned(sets, args, row))
    {
      AssignedOverwrites(filtered, sets, args, row);
      ColumnsOf(filtered, sets, row);
    }
  }
}
