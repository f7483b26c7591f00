/** Which event files of a device are kept (CreateACQdat in sdk/src/GISMonitoring.c): a table of the last five
    names, and the file of the oldest one removed when a sixth is created. */
module FileRetention {
  import opened Basics

  const FILE_BUFFER_MAX := 5

  function Last<T>(s: seq<T>, n: nat): seq<T> {
    if |s| <= n then s else s[|s| - n..]
  }

  function Names(table: seq<string>): set<string> {
    set x | x in table
  }

  /** The name a further creation displaces: the fifth from the end, when there are five. */
  function Displaced(created: seq<string>): set<string> {
    if |created| >= FILE_BUFFER_MAX then {created[|created| - FILE_BUFFER_MAX]} else {}
  }

  /** The table of one device and the files on the disk that bear its names. */
  class Device {
    const buffer: array<string> // filenamebuffs[n].namebuffer
    var count: nat // ACQcounting[n]
    var disk: set<string>
    ghost var created: seq<string> // history

    function Table(): seq<string>
      requires count <= buffer.Length
      reads `count, buffer
    {
      buffer[..count]
    }

    /** The table holds exactly the last five names, or all of them while there are fewer, oldest first. */
    ghost predicate Valid()
      reads this, buffer
    {
      && buffer.Length == FILE_BUFFER_MAX && count <= FILE_BUFFER_MAX
      && Table() == Last(created, FILE_BUFFER_MAX)
    }

    /** The files kept are exactly those in the table. */
    ghost predicate InStep()
      requires Valid()
      reads this, buffer
    {
      disk == Names(Table())
    }

    constructor ()
      ensures Valid() && InStep() && created == [] && fresh(buffer)
    {
      buffer := new string[FILE_BUFFER_MAX](_ => "");
      count, disk, created := 0, {}, [];
    }

    /** CreateACQdat for a file `name`. `removed` and `written` are the outcomes of remove() and fopen(). */
    method CreateDat(name: string, removed: bool, written: bool)
      requires Valid()
      modifies this, buffer
      ensures Valid() && created == old(created) + [name]
      ensures var n := |old(created)|; var gone := if removed && n >= 5 then {old(created)[n - 5]} else {};
        disk == old(disk) - gone + (if written then {name} else {})
      ensures old(InStep()) && removed && written ==>
        (InStep() <==> |old(created)| < 5 || old(Table())[0] !in old(Table())[1..] || old(Table())[0] == name)
    {
      hide Last, Names, Table;
      ghost var table := Table();
      var oldest, full := Remember(name);
      StepTable(table, created, name, Table());
      StepDisk(table, name, Table());
      if full && removed {
        disk := disk - {oldest};
      }
      if written {
        disk := disk + {name};
      }
      created := created + [name];
    }

    /** Lines 224-248 without the file: the name goes to the end of the table, which moves up when it is full. */
    method Remember(name: string) returns (oldest: string, full: bool)
      requires Valid()
      modifies `count, buffer
      ensures buffer.Length == FILE_BUFFER_MAX && count <= FILE_BUFFER_MAX
      ensures full <==> |old(Table())| == FILE_BUFFER_MAX
      ensures full ==> oldest == old(Table())[0]
      ensures Table() == (if full then old(Table())[1..] else old(Table())) + [name]
    {
      full, oldest := count == FILE_BUFFER_MAX, "";
      if count == FILE_BUFFER_MAX {
        oldest := buffer[0];
        for i := 1 to FILE_BUFFER_MAX
          modifies buffer
          invariant forall k :: 0 <= k < i - 1 ==> buffer[k] == old(buffer[k + 1])
          invariant forall k :: i - 1 <= k < 5 ==> buffer[k] == old(buffer[k])
        {
          buffer[i - 1] := buffer[i];
        }
        buffer[FILE_BUFFER_MAX - 1] := name;
      } else if count < FILE_BUFFER_MAX {
        buffer[count] := name;
        count := count + 1;
      }
    }

    /** Over every sequence of creations with names that are all different, each step removes exactly the file of
        the oldest name in the table, and the files kept are exactly those in the table. */
    method CreateAll(names: seq<string>)
      requires Valid() && InStep() && Distinct(created + names)
      modifies this, buffer
      ensures Valid() && InStep() && created == old(created) + names
      ensures forall x :: x in disk <==> Recent(created, x)
      ensures count == if |created| < 5 then |created| else 5
      ensures buffer.Length == 5 && buffer[..count] == created[|created| - count..]
    {
      hide Valid, InStep, Distinct, Last, Names, Table, Recent;
      for i := 0 to |names|
        invariant Valid() && InStep() && created == old(created) + names[..i]
      {
        assert old(created) + names == created + names[i..];
        OldestNotAgain(names[i..]);
        CreateDat(names[i], true, true);
        assert names[..i + 1] == names[..i] + [names[i]];
      }
      assert names[..|names|] == names;
      KeptAreNames();
    }

    /** With names that are all different the oldest one stands in the table once. */
    lemma OldestNotAgain(more: seq<string>)
      requires Valid() && Distinct(created + more)
      ensures |created| < 5 || (|Table()| == 5 && Table()[0] !in Table()[1..])
    {
      hide Distinct;
      if |created| >= FILE_BUFFER_MAX {
        OldestIsUnique(created, more);
      }
    }

    lemma KeptAreNames()
      requires Valid() && InStep()
      ensures forall x :: x in disk <==> Recent(created, x)
      ensures count == if |created| < 5 then |created| else 5
      ensures buffer.Length == 5 && buffer[..count] == created[|created| - count..]
    {
      hide Last, Names, Recent;
      LastFive(created, Table());
    }
  }

  /** One of the last five names created. */
  ghost predicate Recent(created: seq<string>, x: string) {
    exists i :: 0 <= i < |created| && |created| - 5 <= i && created[i] == x
  }

  lemma LastFive(created: seq<string>, table: seq<string>)
    requires table == Last(created, FILE_BUFFER_MAX)
    ensures |table| == if |created| < 5 then |created| else 5
    ensures table == created[|created| - |table|..]
    ensures forall x :: x in Names(table) <==> Recent(created, x)
  {
    var n := |created| - |table|;
    forall x ensures x in Names(table) <==> Recent(created, x) {
      if x in table {
        var k :| 0 <= k < |table| && table[k] == x;
        assert created[n + k] == x;
      }
      if Recent(created, x) {
        var i :| 0 <= i < |created| && |created| - 5 <= i && created[i] == x;
        assert table[i - n] == x;
      }
    }
  }

  lemma OldestIsUnique(created: seq<string>, more: seq<string>)
    requires Distinct(created + more) && |created| >= FILE_BUFFER_MAX
    ensures var table := Last(created, FILE_BUFFER_MAX); table[0] !in table[1..]
  {
    var n := |created| - FILE_BUFFER_MAX;
    assert forall i :: 0 <= i < FILE_BUFFER_MAX ==> Last(created, FILE_BUFFER_MAX)[i] == (created + more)[n + i];
  }

  /** The table after a creation is again the last five names. */
  lemma StepTable(table: seq<string>, created: seq<string>, name: string, table': seq<string>)
    requires table == Last(created, FILE_BUFFER_MAX)
    requires table' == (if |table| == FILE_BUFFER_MAX then table[1..] else table) + [name]
    ensures table' == Last(created + [name], FILE_BUFFER_MAX)
    ensures |table| == FILE_BUFFER_MAX <==> |created| >= FILE_BUFFER_MAX
    ensures Displaced(created) == if |table| == FILE_BUFFER_MAX then {table[0]} else {}
  {
  }

  /** When the file of the displaced name goes and the new one comes, the files still match the table unless the
      displaced name stands in the table a second time and is not the new one. */
  lemma StepDisk(table: seq<string>, name: string, table': seq<string>)
    requires table' == (if |table| == FILE_BUFFER_MAX then table[1..] else table) + [name]
    ensures Names(table) - (if |table| == FILE_BUFFER_MAX then {table[0]} else {}) + {name} == Names(table')
       <==> |table| != FILE_BUFFER_MAX || table[0] !in table[1..] || table[0] == name
  {
    assert Names(table') == Names(if |table| == FILE_BUFFER_MAX then table[1..] else table) + {name};
    if |table| == FILE_BUFFER_MAX {
      assert table == [table[0]] + table[1..];
      assert Names(table) == {table[0]} + Names(table[1..]);
    }
  }
}
