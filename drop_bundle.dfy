/**
 * The validation part of `onDrop`: index the dropped files by name, mint their
 * object URLs, and pick the skeleton (".json") and atlas (".atlas") documents.
 */
module DropBundle {
  import opened Wrappers
  import opened Text
  import opened Table

  /** A dropped file: its name and the object URL the browser mints for it. */
  datatype DroppedFile = DroppedFile(name: string, objectUrl: string)

  const SkeletonSuffix := ".json"
  const AtlasSuffix := ".atlas"

  /** `filesMap` after `filesMap[files[i].name] = files[i]` for every `i` in order. */
  function Indexed(files: seq<DroppedFile>): (filesMap: Table<DroppedFile>)
    ensures Valid(filesMap)
  {
    if files == [] then Empty()
    else
      var last := files[|files| - 1];
      Put(Indexed(files[..|files| - 1]), last.name, last)
  }

  /** Position of the last dropped file called `name`, if any. */
  function LastNamedAt(files: seq<DroppedFile>, name: string): (r: Option<nat>)
    ensures r.None? ==> forall i :: 0 <= i < |files| ==> files[i].name != name
    ensures r.Some? ==> r.value < |files| && files[r.value].name == name
    ensures r.Some? ==> forall j :: r.value < j < |files| ==> files[j].name != name
  {
    if files == [] then None
    else if files[|files| - 1].name == name then Some(|files| - 1)
    else LastNamedAt(files[..|files| - 1], name)
  }

  /**
   * The file map has a key exactly for each dropped name, and the file stored
   * under a name is the LAST dropped file of that name.
   */
  lemma {:induction false} IndexedByName(files: seq<DroppedFile>, name: string)
    ensures name in Indexed(files).values <==> LastNamedAt(files, name).Some?
    ensures name in Indexed(files).values ==>
      Indexed(files).values[name] == files[LastNamedAt(files, name).value]
  {
    if files != [] {
      var init := files[..|files| - 1];
      IndexedByName(init, name);
      if LastNamedAt(init, name).Some? {
        assert init[LastNamedAt(init, name).value] == files[LastNamedAt(init, name).value];
      }
    }
  }

  /** The loop at the head of `onDrop` that fills `filesMap`. */
  method BuildFilesMap(files: seq<DroppedFile>) returns (filesMap: Table<DroppedFile>)
    ensures filesMap == Indexed(files)
  {
    filesMap := Empty();
    for i := 0 to |files|
      invariant filesMap == Indexed(files[..i])
    {
      assert files[..i + 1][..i] == files[..i];
      filesMap := Put(filesMap, files[i].name, files[i]);
    }
    assert files[..|files|] == files;
  }

  /** The loop that fills `fileURLs`: the object URL of each entry of `filesMap`, keys in the same order. */
  method BuildFileUrls(filesMap: Table<DroppedFile>) returns (fileUrls: Table<string>)
    requires Valid(filesMap)
    ensures Valid(fileUrls)
    ensures fileUrls.keys == filesMap.keys
    ensures forall k :: k in filesMap.values ==> k in fileUrls.values && fileUrls.values[k] == filesMap.values[k].objectUrl
  {
    fileUrls := Empty();
    for i := 0 to |filesMap.keys|
      invariant Valid(fileUrls)
      invariant fileUrls.keys == filesMap.keys[..i]
      invariant forall k :: k in fileUrls.values ==> k in filesMap.values && fileUrls.values[k] == filesMap.values[k].objectUrl
    {
      var name := filesMap.keys[i];
      assert name !in filesMap.keys[..i];
      fileUrls := Put(fileUrls, name, filesMap.values[name].objectUrl);
    }
    assert filesMap.keys[..|filesMap.keys|] == filesMap.keys;
  }

  /** Position of the last name, in iteration order, whose lower-cased form ends with `suffix`. */
  function LastWithSuffixAt(names: seq<string>, suffix: string): (r: Option<nat>)
    ensures r.None? ==> forall i :: 0 <= i < |names| ==> !EndsWith(ToLower(names[i]), suffix)
    ensures r.Some? ==> r.value < |names| && EndsWith(ToLower(names[r.value]), suffix)
    ensures r.Some? ==> forall j :: r.value < j < |names| ==> !EndsWith(ToLower(names[j]), suffix)
  {
    if names == [] then None
    else if EndsWith(ToLower(names[|names| - 1]), suffix) then Some(|names| - 1)
    else LastWithSuffixAt(names[..|names| - 1], suffix)
  }

  /** The last name, in iteration order, whose lower-cased form ends with `suffix`. */
  function LastWithSuffix(names: seq<string>, suffix: string): (r: Option<string>)
    ensures r.None? <==> LastWithSuffixAt(names, suffix).None?
    ensures r.Some? ==> r.value in names && EndsWith(ToLower(r.value), suffix)
  {
    match LastWithSuffixAt(names, suffix)
    case None => None
    case Some(i) => Some(names[i])
  }

  /** Looking one more name further either finds that name or keeps the earlier answer. */
  lemma LastWithSuffixStep(names: seq<string>, i: nat, suffix: string)
    requires i < |names|
    ensures LastWithSuffix(names[..i + 1], suffix) ==
      if EndsWith(ToLower(names[i]), suffix) then Some(names[i]) else LastWithSuffix(names[..i], suffix)
  {
    var seen := names[..i + 1];
    assert seen[..i] == names[..i] && seen[i] == names[i];
    if !EndsWith(ToLower(names[i]), suffix) {
      match LastWithSuffixAt(names[..i], suffix)
      case None =>
      case Some(j) => assert seen[j] == names[..i][j];
    }
  }

  /**
   * The loop that sets `jsonFileName` and `atlasFileName`: each is the last
   * key of `filesMap` with that suffix, ignoring case.
   */
  method FindDocuments(filesMap: Table<DroppedFile>) returns (jsonFileName: Option<string>, atlasFileName: Option<string>)
    ensures jsonFileName == LastWithSuffix(filesMap.keys, SkeletonSuffix)
    ensures atlasFileName == LastWithSuffix(filesMap.keys, AtlasSuffix)
  {
    var names := filesMap.keys;
    jsonFileName, atlasFileName := None, None;
    for i := 0 to |names|
      invariant jsonFileName == LastWithSuffix(names[..i], SkeletonSuffix)
      invariant atlasFileName == LastWithSuffix(names[..i], AtlasSuffix)
    {
      LastWithSuffixStep(names, i, SkeletonSuffix);
      LastWithSuffixStep(names, i, AtlasSuffix);
      var lower := ToLower(names[i]);
      AtlasIsNotJson(lower);
      if EndsWith(lower, SkeletonSuffix) {
        jsonFileName := Some(names[i]);
      } else if EndsWith(lower, AtlasSuffix) {
        atlasFileName := Some(names[i]);
      }
    }
    assert names[..|names|] == names;
  }

  /** Some dropped file's name ends with `suffix`, ignoring case. */
  predicate HasDocument(files: seq<DroppedFile>, suffix: string) {
    exists i :: 0 <= i < |files| && EndsWith(ToLower(files[i].name), suffix)
  }

  /**
   * The suffix search over the file map's keys finds a document exactly when
   * some dropped file has that suffix, and what it finds is a dropped name.
   */
  lemma DocumentFound(files: seq<DroppedFile>, suffix: string)
    ensures LastWithSuffix(Indexed(files).keys, suffix).Some? <==> HasDocument(files, suffix)
    ensures LastWithSuffix(Indexed(files).keys, suffix).Some? ==>
      var name := LastWithSuffix(Indexed(files).keys, suffix).value;
      EndsWith(ToLower(name), suffix) && (exists i :: 0 <= i < |files| && files[i].name == name)
  {
    var keys := Indexed(files).keys;
    if HasDocument(files, suffix) {
      var i :| 0 <= i < |files| && EndsWith(ToLower(files[i].name), suffix);
      IndexedByName(files, files[i].name);
      assert files[i].name in keys;
    }
    var r := LastWithSuffixAt(keys, suffix);
    if r.Some? {
      IndexedByName(files, keys[r.value]);
      var j := LastNamedAt(files, keys[r.value]).value;
      assert files[j].name == keys[r.value];
    }
  }

  /** What `onDrop` decides before any read starts. */
  datatype DropVerdict = NoFiles | MissingDocuments | Accepted(skeletonName: string, atlasName: string)

  /**
   * An absent or empty list is refused first; a list without a skeleton or
   * without an atlas document is refused next; otherwise the documents are
   * the last matching keys of the file map.
   */
  function Verdict(files: Option<seq<DroppedFile>>): (v: DropVerdict)
    ensures v == NoFiles <==> files.None? || files.value == []
  {
    if files.None? || files.value == [] then NoFiles
    else
      var json := LastWithSuffix(Indexed(files.value).keys, SkeletonSuffix);
      var atlas := LastWithSuffix(Indexed(files.value).keys, AtlasSuffix);
      if json.None? || atlas.None? then MissingDocuments
      else Accepted(json.value, atlas.value)
  }

  /**
   * A non-empty list is refused exactly when no name ends in ".json" or none
   * ends in ".atlas" (ignoring case); an accepted list names two dropped files
   * with those suffixes.
   */
  lemma VerdictMeaning(files: Option<seq<DroppedFile>>)
    ensures Verdict(files) == MissingDocuments <==> (files.Some? && files.value != []
      && (!HasDocument(files.value, SkeletonSuffix) || !HasDocument(files.value, AtlasSuffix)))
    ensures Verdict(files).Accepted? ==>
      && EndsWith(ToLower(Verdict(files).skeletonName), SkeletonSuffix)
      && (exists i :: 0 <= i < |files.value| && files.value[i].name == Verdict(files).skeletonName)
    ensures Verdict(files).Accepted? ==>
      && EndsWith(ToLower(Verdict(files).atlasName), AtlasSuffix)
      && (exists i :: 0 <= i < |files.value| && files.value[i].name == Verdict(files).atlasName)
  {
    if files.Some? && files.value != [] {
      DocumentFound(files.value, SkeletonSuffix);
      DocumentFound(files.value, AtlasSuffix);
    }
  }

  /** The file read as the document with `suffix`: `filesMap[name]` for the chosen key `name`. */
  function ChosenFile(files: seq<DroppedFile>, suffix: string): Option<DroppedFile> {
    match LastWithSuffix(Indexed(files).keys, suffix)
    case None => None
    case Some(name) => Lookup(Indexed(files), name)
  }

  /**
   * The document read is the last dropped file bearing the chosen name, and
   * that name ends with the suffix; there is one exactly when some dropped
   * name has the suffix.
   */
  lemma ChosenFileMeaning(files: seq<DroppedFile>, suffix: string)
    ensures ChosenFile(files, suffix).Some? <==> HasDocument(files, suffix)
    ensures ChosenFile(files, suffix).Some? ==>
      var f := ChosenFile(files, suffix).value;
      && EndsWith(ToLower(f.name), suffix)
      && LastNamedAt(files, f.name).Some?
      && f == files[LastNamedAt(files, f.name).value]
  {
    DocumentFound(files, suffix);
    var name := LastWithSuffix(Indexed(files).keys, suffix);
    if name.Some? {
      IndexedByName(files, name.value);
    }
  }

  /**
   * The part of `onDrop` after the empty-list check: fill `filesMap` and
   * `fileURLs`, then find the two documents to read.
   */
  method PrepareDrop(files: seq<DroppedFile>)
    returns (fileUrls: Table<string>, skeletonFile: Option<DroppedFile>, atlasFile: Option<DroppedFile>)
    ensures Valid(fileUrls) && fileUrls.keys == Indexed(files).keys
    ensures forall name :: name in Indexed(files).values ==>
      name in fileUrls.values && fileUrls.values[name] == Indexed(files).values[name].objectUrl
    ensures skeletonFile.Some? && atlasFile.Some? <==> Verdict(Some(files)).Accepted?
    ensures Verdict(Some(files)).Accepted? ==>
      skeletonFile == ChosenFile(files, SkeletonSuffix) && atlasFile == ChosenFile(files, AtlasSuffix)
  {
    var filesMap := BuildFilesMap(files);
    fileUrls := BuildFileUrls(filesMap);
    var jsonFileName, atlasFileName := FindDocuments(filesMap);
    if jsonFileName.None? || atlasFileName.None? {
      return fileUrls, None, None;
    }
    skeletonFile := Lookup(filesMap, jsonFileName.value);
    atlasFile := Lookup(filesMap, atlasFileName.value);
  }
}
