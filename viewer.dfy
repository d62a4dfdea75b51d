/** The state the viewer page keeps about imported files: local storage (the parsed payloads
    and the "fileNames" counter table), the file list with its Add/Remove rows, the array of
    added objects and the scene list rebuilt from it. */
module Viewer {
  import opened DisplayNames
  import opened NameCounters

  /** A parse result as it is persisted; only how many meshes it holds matters here. */
  datatype Payload = Payload(meshCount: nat)

  /** One element of `addedObjects`: the name shown for the file and the handle of the
      mesh added to the scene for it. */
  datatype AddedObject = AddedObject(name: string, model: nat)

  /** The `existingNames` object of one file selection. The loop of that selection and the
      Remove buttons of its rows all update this same object. */
  class NameTable {
    var counters: Counters

    constructor (initial: Counters)
      ensures counters == initial
    {
      counters := initial;
    }

    /** One iteration of the loop over the selected files: a name whose counter is truthy
        is shown with that counter and the counter advances; otherwise the name is shown as
        it is and its counter becomes 1. */
    method Register(name: string) returns (fileName: string)
      modifies this
      ensures Registration(fileName, counters) == NameCounters.Register(old(counters), name)
    {
      fileName := name;
      if name in counters && counters[name] != 0 {
        var count := counters[name];
        fileName := Disambiguate(fileName, count);
        counters := counters[name := count + 1];
      } else {
        counters := counters[name := 1];
      }
    }
  }

  /** A row of the file list. Its Add and Remove closures capture the name it shows and the
      table of the selection it came from. */
  class FileEntry {
    const display: string
    const table: NameTable

    constructor (display: string, table: NameTable)
      ensures this.display == display && this.table == table
    {
      this.display := display;
      this.table := table;
    }
  }

  /** The scene list shows one row per added object, holding its name, in array order. */
  ghost predicate ListsObjects(rows: seq<string>, objects: seq<AddedObject>) {
    |rows| == |objects| && forall i :: 0 <= i < |objects| ==> rows[i] == objects[i].name
  }

  /** The records Add appends for a payload of `count` meshes: one per mesh, in mesh order,
      each carrying the shown name and a handle of its own. */
  function NewObjects(name: string, firstHandle: nat, count: nat): (r: seq<AddedObject>)
    ensures |r| == count
    ensures forall k :: 0 <= k < count ==> r[k].name == name && r[k].model == firstHandle + k
  {
    seq(count, k requires 0 <= k < count => AddedObject(name, firstHandle + k))
  }

  /** The rows of a list one row longer are the rows of the shorter list and that row. */
  lemma RowSetAppend(rows: seq<FileEntry>, row: FileEntry)
    ensures (set r | r in rows + [row]) == (set r | r in rows) + {row}
  {
  }

  /** Rebuilds the scene list from scratch, one row per added object. */
  method RenderObjectList(objects: seq<AddedObject>) returns (rows: seq<string>)
    ensures ListsObjects(rows, objects)
  {
    rows := [];
    var i := 0;
    while i < |objects|
      invariant 0 <= i <= |objects|
      invariant |rows| == i
      invariant forall k :: 0 <= k < i ==> rows[k] == objects[k].name
    {
      rows := rows + [objects[i].name];
      i := i + 1;
    }
  }

  class Session {
    /** Local storage apart from the "fileNames" key: a payload per shown name. */
    var storage: map<string, Payload>
    /** The "fileNames" key of local storage; an absent key reads as the empty table. */
    var persistedNames: Counters
    /** The rows of the file list that carry Add and Remove buttons, in order. */
    var fileRows: seq<FileEntry>
    /** The added objects, in the order they were added. */
    var addedObjects: seq<AddedObject>
    /** The names the scene list shows. */
    var sceneList: seq<string>
    /** The handle the next mesh gets. */
    var nextHandle: nat
    /** Every row ever created, listed or not: the rows whose file reads can still complete. */
    ghost var allRows: set<FileEntry>

    ghost predicate Valid()
      reads this
    {
      && ListsObjects(sceneList, addedObjects)
      && (forall i :: 0 <= i < |addedObjects| ==> addedObjects[i].model < nextHandle)
      && (forall i, j :: 0 <= i < j < |addedObjects| ==> addedObjects[i].model < addedObjects[j].model)
      && (forall i, j :: 0 <= i < j < |fileRows| ==> fileRows[i] != fileRows[j])
    }

    /** Page load: local storage holds whatever earlier visits left; nothing is added yet. */
    constructor (stored: map<string, Payload>, names: Counters)
      ensures Valid()
      ensures storage == stored && persistedNames == names
      ensures fileRows == [] && addedObjects == [] && sceneList == [] && nextHandle == 0
      ensures allRows == {}
    {
      storage := stored;
      persistedNames := names;
      fileRows := [];
      addedObjects := [];
      sceneList := [];
      nextHandle := 0;
      allRows := {};
    }

    /** The file-input change handler: reads the counter table, gives every selected file
        a shown name and a row, then writes the table back once. The payloads arrive later
        through StorePayload. */
    method ImportBatch(names: seq<string>) returns (displayed: seq<string>, table: NameTable, rows: seq<FileEntry>)
      requires Valid()
      modifies this
      ensures Valid()
      ensures fresh(table)
      ensures Batch(displayed, table.counters) == RegisterAll(old(persistedNames), names)
      ensures persistedNames == table.counters
      ensures |rows| == |names|
      ensures forall k :: 0 <= k < |rows| ==>
        fresh(rows[k]) && rows[k].display == displayed[k] && rows[k].table == table
      ensures fileRows == old(fileRows) + rows
      ensures allRows == old(allRows) + (set r | r in rows)
      ensures storage == old(storage) && addedObjects == old(addedObjects)
      ensures sceneList == old(sceneList) && nextHandle == old(nextHandle)
    {
      ghost var m0 := persistedNames;
      table := new NameTable(persistedNames);
      displayed, rows := [], [];
      var i := 0;
      while i < |names|
        invariant 0 <= i <= |names|
        invariant Batch(displayed, table.counters) == RegisterAll(m0, names[..i])
        invariant |rows| == i
        invariant forall k :: 0 <= k < i ==>
          fresh(rows[k]) && rows[k].display == displayed[k] && rows[k].table == table
        invariant fileRows == old(fileRows) + rows
        invariant allRows == old(allRows) + (set r | r in rows)
        invariant persistedNames == old(persistedNames) && storage == old(storage)
        invariant addedObjects == old(addedObjects) && sceneList == old(sceneList)
        invariant nextHandle == old(nextHandle)
        invariant Valid()
      {
        ghost var before := Batch(displayed, table.counters);
        var fileName := table.Register(names[i]);
        RegisterAllStep(m0, names, i, before, Registration(fileName, table.counters));
        var row := AppendRow(fileName, table);
        displayed := displayed + [fileName];
        RowSetAppend(rows, row);
        rows := rows + [row];
        i := i + 1;
      }
      assert names[..i] == names;
      persistedNames := table.counters;
    }

    /** Creates a file-list row with its Add and Remove buttons and appends it to the list. */
    method AppendRow(display: string, table: NameTable) returns (row: FileEntry)
      requires Valid()
      modifies this
      ensures Valid()
      ensures fresh(row) && row.display == display && row.table == table
      ensures fileRows == old(fileRows) + [row]
      ensures allRows == old(allRows) + {row}
      ensures storage == old(storage) && persistedNames == old(persistedNames)
      ensures addedObjects == old(addedObjects) && sceneList == old(sceneList)
      ensures nextHandle == old(nextHandle)
    {
      row := new FileEntry(display, table);
      fileRows := fileRows + [row];
      allRows := allRows + {row};
    }

    /** A file read completes: its parse result is saved under the name the file's row
        shows, replacing whatever was there. This happens even if the row was removed or
        the list cleared meanwhile, but only for a row the file-input handler created. */
    method StorePayload(entry: FileEntry, result: Payload)
      requires Valid() && entry in allRows
      modifies this
      ensures Valid()
      ensures storage == old(storage)[entry.display := result]
      ensures persistedNames == old(persistedNames) && fileRows == old(fileRows)
      ensures addedObjects == old(addedObjects) && sceneList == old(sceneList)
      ensures nextHandle == old(nextHandle) && allRows == old(allRows)
    {
      storage := storage[entry.display := result];
    }

    /** A row's Add button: with no payload stored under its name the handler fails before
        changing anything; otherwise every mesh of the payload is added to the scene and
        recorded, and the scene list is rebuilt after each. */
    method Add(entry: FileEntry)
      requires Valid() && entry in fileRows
      modifies this
      ensures Valid()
      ensures entry.display !in old(storage) ==>
        addedObjects == old(addedObjects) && nextHandle == old(nextHandle)
      ensures entry.display in old(storage) ==>
        var count := old(storage)[entry.display].meshCount;
        && addedObjects == old(addedObjects) + NewObjects(entry.display, old(nextHandle), count)
        && nextHandle == old(nextHandle) + count
      ensures ListsObjects(sceneList, addedObjects)
      ensures storage == old(storage) && persistedNames == old(persistedNames)
      ensures fileRows == old(fileRows) && allRows == old(allRows)
    {
      if entry.display !in storage {
        return;
      }
      var count := storage[entry.display].meshCount;
      var k := 0;
      while k < count
        invariant 0 <= k <= count
        invariant addedObjects == old(addedObjects) + NewObjects(entry.display, old(nextHandle), k)
        invariant nextHandle == old(nextHandle) + k
        invariant storage == old(storage) && persistedNames == old(persistedNames)
        invariant fileRows == old(fileRows) && allRows == old(allRows)
        invariant Valid()
      {
        var mesh := nextHandle;
        nextHandle := nextHandle + 1;
        addedObjects := addedObjects + [AddedObject(entry.display, mesh)];
        assert NewObjects(entry.display, old(nextHandle), k + 1)
            == NewObjects(entry.display, old(nextHandle), k) + [AddedObject(entry.display, mesh)];
        sceneList := RenderObjectList(addedObjects);
        k := k + 1;
      }
    }

    /** A row's Remove button: takes the row off the file list, deletes the payload stored
        under its name and deletes that name from its selection's table, which it then writes
        back as the persisted table. The handler stops there: the lookup of the mesh to detach
        fails, so the added objects and the scene list are untouched. */
    method Remove(entry: FileEntry)
      requires Valid() && entry in fileRows
      modifies this, entry.table
      ensures Valid()
      ensures exists i :: 0 <= i < |old(fileRows)| && old(fileRows)[i] == entry
                       && fileRows == old(fileRows)[..i] + old(fileRows)[i + 1..]
      ensures entry !in fileRows
      ensures storage == old(storage) - {entry.display}
      ensures entry.table.counters == old(entry.table.counters) - {entry.display}
      ensures persistedNames == entry.table.counters
      ensures addedObjects == old(addedObjects) && sceneList == old(sceneList)
      ensures nextHandle == old(nextHandle) && allRows == old(allRows)
    {
      var i :| 0 <= i < |fileRows| && fileRows[i] == entry;
      ghost var before := fileRows;
      fileRows := fileRows[..i] + fileRows[i + 1..];
      assert forall k :: 0 <= k < |fileRows| ==> fileRows[k] == if k < i then before[k] else before[k + 1];
      storage := storage - {entry.display};
      entry.table.counters := entry.table.counters - {entry.display};
      persistedNames := entry.table.counters;
    }

    /** The Clear button: empties local storage, payloads and the "fileNames" table alike,
        and the file list. Added objects and the scene list are left as they are. */
    method Clear()
      requires Valid()
      modifies this
      ensures Valid()
      ensures storage == map[] && persistedNames == map[] && fileRows == []
      ensures addedObjects == old(addedObjects) && sceneList == old(sceneList)
      ensures nextHandle == old(nextHandle) && allRows == old(allRows)
    {
      storage := map[];
      persistedNames := map[];
      fileRows := [];
    }
  }

  /** Import "B" twice in one selection, then "B" alone, then Remove the first selection's
      "B (1)" row. That row's table never saw the second selection: it still holds B := 2,
      and writing it back moves B's persisted counter from 3 back to 2. The next import of
      "B" is shown "B (2)", the label of a row that is still listed. With one shared table
      it would have been "B (3)". */
  method StaleTableScenario() returns (listed: string, again: string, stillListed: bool)
    ensures listed == again == Disambiguate("B", 2)
    ensures stillListed
  {
    var session := new Session(map[], map[]);
    var shown1, table1, rows1 := session.ImportBatch(["B", "B"]);
    assert ["B", "B"][..1] == ["B"] && ["B"][..0] == [];
    assert table1.counters == map["B" := 2];
    var shown2, table2, rows2 := session.ImportBatch(["B"]);
    assert session.persistedNames == map["B" := 3];
    listed := shown2[0];
    assert listed == Disambiguate("B", 2);
    assert Disambiguate("B", 1) != "B";
    session.Remove(rows1[1]);
    assert session.persistedNames == map["B" := 2];
    var shown3, table3, rows3 := session.ImportBatch(["B"]);
    again := shown3[0];
    stillListed := rows2[0] in session.fileRows;
  }

  /** Without any stale table, copies of one name in different selections can share a
      label: import "B", import "B" (shown "B (1)"), Remove the plain "B" row, then import
      "B" twice. The second of these is shown "B (1)" while the earlier "B (1)" row is
      still listed, and its payload will be stored under the same key. */
  method RelabelAcrossSelectionsScenario() returns (listed: string, again: string, stillListed: bool)
    ensures listed == again == Disambiguate("B", 1)
    ensures stillListed
  {
    var session := new Session(map[], map[]);
    var shown1, table1, rows1 := session.ImportBatch(["B"]);
    assert ["B"][..0] == [];
    var shown2, table2, rows2 := session.ImportBatch(["B"]);
    listed := shown2[0];
    session.Remove(rows1[0]);
    assert session.persistedNames == map[];
    var shown3, table3, rows3 := session.ImportBatch(["B", "B"]);
    assert ["B", "B"][..1] == ["B"];
    again := shown3[1];
    stillListed := rows2[0] in session.fileRows;
  }

  /** Import "part.step", let its one-mesh parse result arrive, press Add, then Remove: Add
      records exactly one object; Remove deletes the payload, but the object stays recorded
      and listed in the scene list. */
  method ImportAddRemoveScenario() returns (shown: string, addedBefore: nat, stored: bool, addedAfter: nat)
    ensures shown == "part.step"
    ensures addedBefore == 1 && !stored && addedAfter == 1
  {
    var session := new Session(map[], map[]);
    var names, table, rows := session.ImportBatch(["part.step"]);
    assert ["part.step"][..0] == [];
    shown := names[0];
    assert rows[0] in session.allRows;
    session.StorePayload(rows[0], Payload(1));
    session.Add(rows[0]);
    addedBefore := |session.addedObjects|;
    session.Remove(rows[0]);
    stored := shown in session.storage;
    addedAfter := |session.sceneList|;
  }

  /** Import "A", then "C", then Remove the "A" row. Its table is the first selection's,
      which never saw "C": writing it back drops C's counter. The next import of "C" is
      shown plain "C", the name of a row that is still listed. */
  method StaleTableDropsLaterScenario() returns (listed: string, again: string, stillListed: bool)
    ensures listed == again == "C"
    ensures stillListed
  {
    var session := new Session(map[], map[]);
    var shown1, table1, rows1 := session.ImportBatch(["A"]);
    assert ["A"][..0] == [];
    var shown2, table2, rows2 := session.ImportBatch(["C"]);
    assert ["C"][..0] == [];
    listed := shown2[0];
    session.Remove(rows1[0]);
    assert session.persistedNames == map[];
    var shown3, table3, rows3 := session.ImportBatch(["C"]);
    again := shown3[0];
    stillListed := rows2[0] in session.fileRows;
  }
}
