/**
 The user PATH rule shared by the installer's `add_to_path` and the manager's
 `add_folder_to_path`: the registry value is read as `;`-separated entries, and
 the folder is appended unless an entry already names it.

 `os.path.abspath`, `os.path.normpath` and `str.lower` are runtime services the
 model does not re-implement; they arrive as the functions of a `PathOps`.
 */
module PathEntries {
  import opened Wrappers
  import opened Text

  datatype PathOps = PathOps(abspath: string -> string, normpath: string -> string, lower: string -> string)

  /** The key an existing entry is compared under: normalised, then lower-cased. */
  function EntryKey(e: string, ops: PathOps): string {
    ops.lower(ops.normpath(e))
  }

  /** The trimmed, non-empty pieces, in order. */
  function Kept(pieces: seq<string>): seq<string> {
    if |pieces| == 0 then []
    else
      var t := Strip(pieces[0]);
      (if t == "" then [] else [t]) + Kept(pieces[1..])
  }

  /** An entry is exactly the non-empty trimmed form of some piece. */
  lemma {:induction false} KeptMembers(pieces: seq<string>, e: string)
    ensures e in Kept(pieces) <==> e != "" && exists p :: p in pieces && Strip(p) == e
    decreases |pieces|
  {
    if |pieces| > 0 {
      assert forall p :: p in pieces <==> p == pieces[0] || p in pieces[1..];
      KeptMembers(pieces[1..], e);
    }
  }

  lemma {:induction false} KeptAppend(a: seq<string>, b: seq<string>)
    ensures Kept(a + b) == Kept(a) + Kept(b)
    decreases |a|
  {
    if |a| == 0 {
      assert a + b == b;
    } else {
      assert (a + b)[0] == a[0];
      assert (a + b)[1..] == a[1..] + b;
      KeptAppend(a[1..], b);
    }
  }

  /** The entries of a PATH value: split on `;`, each piece trimmed, empty pieces dropped. */
  function Entries(path: string): seq<string> {
    Kept(Split(path, ';'))
  }

  /** The empty value has no entries. */
  lemma EntriesOfEmpty()
    ensures Entries("") == []
  {
    assert Split("", ';') == [""];
    assert [""][1..] == [];
  }

  /** Some entry's key equals `key`. */
  function Listed(entries: seq<string>, key: string, ops: PathOps): (r: bool)
    ensures r <==> exists e :: e in entries && EntryKey(e, ops) == key
  {
    if |entries| == 0 then false
    else if EntryKey(entries[0], ops) == key then true
    else
      assert forall e :: e in entries <==> e == entries[0] || e in entries[1..];
      Listed(entries[1..], key, ops)
  }

  /** Appending `;` and a folder to a value appends the folder's entries. */
  lemma EntriesAppend(current: string, folder: string)
    ensures Entries(current + [';'] + folder) == Entries(current) + Entries(folder)
  {
    SplitAround(current, folder, ';');
    KeptAppend(Split(current, ';'), Split(folder, ';'));
  }
}

/** The merge decision and the registry write built on it. */
module PathList {
  import opened Wrappers
  import opened Text
  import opened PathEntries

  datatype MergeOutcome = AlreadyPresent | NewValue(value: string)

  /**
   Decides what becomes of the PATH value `current` when `folder` (already made
   absolute) is added: nothing when some entry names it, otherwise the old value,
   unchanged, followed by `;` and the folder.
   */
  function Merge(current: string, folder: string, ops: PathOps): (r: MergeOutcome)
    ensures r.AlreadyPresent? <==> exists e :: e in Entries(current) && EntryKey(e, ops) == ops.lower(folder)
    ensures r.NewValue? ==> StartsWith(r.value, current)
    ensures r.NewValue? && current == "" ==> r.value == folder
    ensures r.NewValue? && current != "" ==> r.value[|current|..] == [';'] + folder
    ensures r.NewValue? ==> Entries(r.value) == Entries(current) + Entries(folder)
  {
    var entries := Entries(current);
    if Listed(entries, ops.lower(folder), ops) then
      AlreadyPresent
    else if current == "" then
      EntriesOfEmpty();
      NewValue(folder)
    else
      var v := current + [';'] + folder;
      EntriesAppend(current, folder);
      AppendShape(current, folder);
      NewValue(v)
  }

  lemma AppendShape(current: string, folder: string)
    ensures StartsWith(current + [';'] + folder, current)
    ensures (current + [';'] + folder)[|current|..] == [';'] + folder
  {
    assert (current + [';'] + folder)[..|current|] == current;
  }

  /** The PATH value after a merge has been applied. */
  function Applied(current: string, m: MergeOutcome): string {
    match m
    case AlreadyPresent => current
    case NewValue(v) => v
  }

  /**
   Merging is idempotent for a folder that survives the PATH reading unchanged:
   non-empty, free of `;`, without surrounding whitespace, and a fixed point of
   normalise-then-lower-case up to case.
   */
  lemma MergeIdempotent(current: string, folder: string, ops: PathOps)
    requires folder != "" && ';' !in folder && Strip(folder) == folder
    requires EntryKey(folder, ops) == ops.lower(folder)
    ensures Merge(Applied(current, Merge(current, folder, ops)), folder, ops) == AlreadyPresent
  {
    var m := Merge(current, folder, ops);
    if m.NewValue? {
      SplitWithoutSeparator(folder, ';');
      assert Kept([folder]) == [folder] + Kept([]) by {
        assert [folder][1..] == [];
      }
      assert Entries(folder) == [folder];
      assert folder in Entries(m.value);
    }
  }

  /** How far the registry lets the PATH step get before an exception. */
  datatype RegistryAccess =
    | Granted      // the key opens and the value can be written
    | CannotOpen   // `OpenKey` raises (permission or any other error)
    | CannotWrite  // the key opens but `SetValueEx` raises

  /** The function's `bool` result and the registry's PATH value afterwards (`None`: no value). */
  datatype PathUpdate = PathUpdate(ok: bool, userPath: Option<string>)

  /**
   The registry side of both PATH functions, for an absolute `folder`. A missing
   value reads as the empty string; any exception yields `false` and no write.
   */
  function Register(folder: string, ops: PathOps, access: RegistryAccess, userPath: Option<string>): (r: PathUpdate)
    ensures var m := Merge(userPath.GetOr(""), folder, ops);
      && (r.ok <==> access == Granted || (access == CannotWrite && m.AlreadyPresent?))
      && (r.userPath != userPath <==> access == Granted && m.NewValue? && Some(m.value) != userPath)
      && (r.userPath != userPath ==> r.userPath == Some(m.value))
  {
    if access == CannotOpen then PathUpdate(false, userPath)
    else
      match Merge(userPath.GetOr(""), folder, ops)
      case AlreadyPresent => PathUpdate(true, userPath)
      case NewValue(v) =>
        if access == CannotWrite then PathUpdate(false, userPath) else PathUpdate(true, Some(v))
  }

  /**
   `add_to_path` of the installer and `add_folder_to_path` of the manager, which
   follow one rule: the folder is made absolute and appended to the user PATH
   unless an entry already names it. `true` when it is (or already was) there;
   `false`, with the registry untouched, when the registry raises.
   */
  function AddFolder(folder: string, ops: PathOps, access: RegistryAccess, userPath: Option<string>): (r: PathUpdate)
    ensures var f := ops.abspath(folder);
      var current := userPath.GetOr("");
      var listed := exists e :: e in Entries(current) && EntryKey(e, ops) == ops.lower(f);
      && (r.ok <==> access == Granted || (access == CannotWrite && listed))
      && (listed || access != Granted ==> r.userPath == userPath)
      && (!listed && access == Granted ==> r.userPath == Some(if current == "" then f else current + ";" + f))
  {
    var f := ops.abspath(folder);
    var current := userPath.GetOr("");
    var m := Merge(current, f, ops);
    assert m.NewValue? && current != "" ==> m.value == current + ";" + f by {
      if m.NewValue? && current != "" {
        assert m.value == m.value[..|current|] + m.value[|current|..];
      }
    }
    Register(f, ops, access, userPath)
  }

  /** Registering the same folder twice: the second call succeeds and writes nothing. */
  lemma RegisterTwice(folder: string, ops: PathOps, userPath: Option<string>, again: RegistryAccess)
    requires folder != "" && ';' !in folder && Strip(folder) == folder
    requires EntryKey(folder, ops) == ops.lower(folder)
    requires again != CannotOpen
    ensures var first := Register(folder, ops, Granted, userPath);
      var second := Register(folder, ops, again, first.userPath);
      second.ok && second.userPath == first.userPath
  {
    var current := userPath.GetOr("");
    MergeIdempotent(current, folder, ops);
    var first := Register(folder, ops, Granted, userPath);
    if Merge(current, folder, ops).NewValue? {
      assert first.userPath == Some(Applied(current, Merge(current, folder, ops)));
    } else {
      assert first.userPath == userPath;
    }
  }
}
