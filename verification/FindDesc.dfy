/** The search of the three-level table of command descriptions, with its early exits, and the
    decoding of arguments that begins with it. */
module FindDesc {
  import opened Bytes
  import opened Codec

  /** The identifiers of a command: of its project, its class and itself. */
  datatype Key = Key(prj: byte, cls: byte, cmd: u16)

  /** Projects, each with classes, each with commands. */
  type Table = seq<seq<seq<Desc>>>

  /** All the descriptions in order. */
  function FlatClasses(classes: seq<seq<Desc>>): seq<Desc> {
    if classes == [] then [] else classes[0] + FlatClasses(classes[1..])
  }

  function Flat(table: Table): seq<Desc> {
    if table == [] then [] else FlatClasses(table[0]) + Flat(table[1..])
  }

  predicate IsFor(d: Desc, key: Key) {
    d.prj == key.prj && d.cls == key.cls && d.cmd == key.cmd
  }

  /** The reference: the first description with the identifiers, in a plain search. */
  function Search(ds: seq<Desc>, key: Key): (r: Option<Desc>)
    ensures r.Some? ==> r.value in ds && r.value.prj == key.prj && r.value.cls == key.cls && r.value.cmd == key.cmd
    ensures r == None ==> forall d <- ds :: d.prj != key.prj || d.cls != key.cls || d.cmd != key.cmd
  {
    if ds == [] then None
    else if IsFor(ds[0], key) then Some(ds[0])
    else Search(ds[1..], key)
  }

  /** The table is grouped, as the generator emits it: descriptions have the same project if and
      only if they are under the same entry, and within it the same class likewise. Any of the
      inner tables may be empty, and identifiers may occur more than once. */
  ghost predicate Grouped(table: Table) {
    && (forall i, j, k, i', j', k' | InTable(table, i, j, k) && InTable(table, i', j', k') ::
      table[i][j][k].prj == table[i'][j'][k'].prj <==> i == i')
    && (forall i, j, k, j', k' | InTable(table, i, j, k) && InTable(table, i, j', k') ::
      table[i][j][k].cls == table[i][j'][k'].cls <==> j == j')
  }

  ghost predicate InTable(table: Table, i: int, j: int, k: int) {
    0 <= i < |table| && 0 <= j < |table[i]| && 0 <= k < |table[i][j]|
  }

  lemma {:induction false} SearchAppend(a: seq<Desc>, b: seq<Desc>, key: Key)
    ensures Search(a + b, key) == if Search(a, key).Some? then Search(a, key) else Search(b, key)
  {
    if a == [] {
      assert a + b == b;
    } else {
      assert (a + b)[1..] == a[1..] + b;
      SearchAppend(a[1..], b, key);
    }
  }

  /** No description before place `k` of a table is the one looked for. */
  ghost predicate NotBefore(table: Table, key: Key, i: int, j: int, k: int) {
    forall i', j', k' | InTable(table, i', j', k') && (i' < i || (i' == i && (j' < j || (j' == j && k' < k)))) ::
      !IsFor(table[i'][j'][k'], key)
  }

  lemma {:induction false} SearchIn(ds: seq<Desc>, key: Key, k: nat)
    requires k <= |ds| && forall k' :: 0 <= k' < k ==> !IsFor(ds[k'], key)
    ensures Search(ds, key) == Search(ds[k..], key)
  {
    assert ds == ds[..k] + ds[k..];
    SearchAppend(ds[..k], ds[k..], key);
    assert forall d <- ds[..k] :: !IsFor(d, key);
  }

  /** The plain search finds the first description in the order of the table. */
  lemma {:induction false} SearchClasses(classes: seq<seq<Desc>>, key: Key, j: nat)
    requires j <= |classes|
    requires forall j', k' :: 0 <= j' < j && 0 <= k' < |classes[j']| ==> !IsFor(classes[j'][k'], key)
    ensures Search(FlatClasses(classes), key) == Search(FlatClasses(classes[j..]), key)
  {
    if j > 0 {
      SearchAppend(classes[0], FlatClasses(classes[1..]), key);
      SearchIn(classes[0], key, |classes[0]|);
      assert classes[1..][j - 1..] == classes[j..];
      SearchClasses(classes[1..], key, j - 1);
    } else {
      assert classes[0..] == classes;
    }
  }

  lemma {:induction false} SearchProjects(table: Table, key: Key, i: nat)
    requires i <= |table| && NotBefore(table, key, i, 0, 0)
    ensures Search(Flat(table), key) == Search(Flat(table[i..]), key)
  {
    if i > 0 {
      SearchAppend(FlatClasses(table[0]), Flat(table[1..]), key);
      forall j', k' | 0 <= j' < |table[0]| && 0 <= k' < |table[0][j']| ensures !IsFor(table[0][j'][k'], key) {
        assert InTable(table, 0, j', k');
      }
      SearchClasses(table[0], key, |table[0]|);
      forall i', j', k' | InTable(table[1..], i', j', k') && i' < i - 1 ensures !IsFor(table[1..][i'][j'][k'], key) {
        assert InTable(table, i' + 1, j', k');
      }
      assert table[1..][i - 1..] == table[i..];
      SearchProjects(table[1..], key, i - 1);
    } else {
      assert table[0..] == table;
    }
  }

  lemma SearchAt(table: Table, key: Key, i: int, j: int, k: int)
    requires InTable(table, i, j, k) && NotBefore(table, key, i, j, k) && IsFor(table[i][j][k], key)
    ensures Search(Flat(table), key) == Some(table[i][j][k])
  {
    var classes := table[i];
    SearchProjects(table, key, i);
    assert table[i..][0] == classes;
    forall j', k' | 0 <= j' < j && 0 <= k' < |classes[j']| ensures !IsFor(classes[j'][k'], key) {
      assert InTable(table, i, j', k');
    }
    SearchAppend(FlatClasses(classes), Flat(table[i..][1..]), key);
    SearchClasses(classes, key, j);
    assert classes[j..][0] == classes[j];
    SearchAppend(classes[j], FlatClasses(classes[j..][1..]), key);
    forall k' | 0 <= k' < k ensures !IsFor(classes[j][k'], key) {
      assert InTable(table, i, j, k');
    }
    SearchIn(classes[j], key, k);
    assert classes[j][k..][0] == classes[j][k];
  }

  /** Nothing is found when no description of the table is the one looked for. */
  lemma SearchNowhere(table: Table, key: Key)
    requires NotBefore(table, key, |table|, 0, 0)
    ensures Search(Flat(table), key) == None
  {
    SearchProjects(table, key, |table|);
    assert table[|table|..] == [];
  }

  /** Once the project, or the class in it, was left after its first description, nothing else of the
      table can be the one looked for. */
  lemma NotElsewhere(table: Table, key: Key, i: int, j: int, k: int)
    requires Grouped(table) && InTable(table, i, j, k) && table[i][j][k].prj == key.prj
    ensures NotBefore(table, key, i + 1, 0, 0) ==> NotBefore(table, key, |table|, 0, 0)
    ensures table[i][j][k].cls == key.cls && NotBefore(table, key, i, j + 1, 0) ==> NotBefore(table, key, |table|, 0, 0)
  {
  }

  /** The search of the source: it leaves a project at its first description of another project, a
      class at its first description of another class, and stops after the class or the project
      that was the right one. On a grouped table it finds what the plain search finds. */
  method Find(table: Table, key: Key) returns (r: Option<Desc>)
    requires Grouped(table)
    ensures r == Search(Flat(table), key)
  {
    hide Grouped, Flat, Search;
    var projectFound, classFound := false, false;
    var i := 0;
    while i < |table|
      invariant 0 <= i <= |table| && !projectFound && !classFound
      invariant NotBefore(table, key, i, 0, 0)
    {
      var j := 0;
      ghost var p: (int, int) := (0, 0);
      label Product: while j < |table[i]|
        invariant 0 <= j <= |table[i]| && !classFound
        invariant NotBefore(table, key, i, j, 0)
        invariant projectFound ==> InTable(table, i, p.0, p.1) && table[i][p.0][p.1].prj == key.prj
      {
        var k := 0;
        label Class: while k < |table[i][j]|
          invariant 0 <= k <= |table[i][j]|
          invariant NotBefore(table, key, i, j, k)
          invariant projectFound ==> InTable(table, i, p.0, p.1) && table[i][p.0][p.1].prj == key.prj
          invariant classFound ==> projectFound && p.0 == j && table[i][p.0][p.1].cls == key.cls
        {
          var d := table[i][j][k];
          assert InTable(table, i, j, k);
          if d.prj != key.prj {
            LeaveProject(table, key, i, j, k);
            break Product;
          }
          projectFound := true;
          p := (j, k);
          if d.cls != key.cls {
            LeaveClass(table, key, i, j, k);
            break Class;
          }
          classFound := true;
          if d.cmd == key.cmd {
            SearchAt(table, key, i, j, k);
            return Some(d);
          }
          k := k + 1;
        }
        if classFound {
          NotElsewhere(table, key, i, p.0, p.1);
          SearchNowhere(table, key);
          return None;
        }
        j := j + 1;
      }
      if projectFound {
        NotElsewhere(table, key, i, p.0, p.1);
        SearchNowhere(table, key);
        return None;
      }
      i := i + 1;
    }
    SearchNowhere(table, key);
    return None;
  }

  lemma LeaveProject(table: Table, key: Key, i: int, j: int, k: int)
    requires Grouped(table) && InTable(table, i, j, k) && table[i][j][k].prj != key.prj && NotBefore(table, key, i, 0, 0)
    ensures NotBefore(table, key, i + 1, 0, 0)
    ensures forall j', k' | InTable(table, i, j', k') :: table[i][j'][k'].prj != key.prj
  {
  }

  lemma LeaveClass(table: Table, key: Key, i: int, j: int, k: int)
    requires Grouped(table) && InTable(table, i, j, k) && table[i][j][k].cls != key.cls && NotBefore(table, key, i, j, 0)
    ensures NotBefore(table, key, i, j + 1, 0)
    ensures forall k' | InTable(table, i, j, k') :: table[i][j][k'].cls != key.cls
  {
  }

  /** Decodes the arguments of a command whose identifiers are known. Without a description there is
      nothing to decode with; otherwise the first one in the table is taken. */
  method GetValues(table: Table, key: Key, buf: seq<byte>, maxCount: nat) returns (res: Errno, values: seq<Value>)
    requires Grouped(table)
    ensures res == ENoEnt <==> forall d <- Flat(table) :: !IsFor(d, key)
    ensures res != ENoEnt ==>
      var args := Search(Flat(table), key).value.args;
      var r := DecodeValues(args, buf, 4);
      && res == (if |args| <= maxCount && r.Some? then Success else EInval)
      && (res == Success ==> values == r.value.0)
  {
    hide Grouped, Flat, DecodeValues;
    var d := Find(table, key);
    match d
    case None => return ENoEnt, [];
    case Some(desc) =>
      ghost var off;
      res, values, off := Codec.GetValues(desc, buf, maxCount);
  }
}
