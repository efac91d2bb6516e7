/**
 * The application-state store: a closed set of actions and the reducer that turns a state and
 * an action into a new state, built only from append, filter-by-id and replace-by-id.
 */
module AppStateContext {
  import opened Wrappers
  import opened Types
  import Seqs

  /**
   * The actions the store accepts. `AddCharacter` carries the id that `crypto.randomUUID()`
   * yields when the reducer runs; `Unrecognized` is any other action type, which the
   * reducer's default case answers with the state unchanged.
   */
  datatype Action =
    | AddCharacter(name: string, newId: string)
    | DeleteCharacter(id: string)
    | UpdateCharacter(character: Character)
    | SelectCharacter(focus: Option<string>)
    | AddAudioFile(characterId: string, file: AudioFile)
    | DeleteAudioFile(characterId: string, fileId: string)
    | UpdateAudioFile(characterId: string, file: AudioFile)
    | Unrecognized(tag: string)

  /** The state the store starts from. */
  function InitialState(): (s: AppState)
    ensures s.characters == [] && s.selectedCharacterId == None
  {
    AppState([], None)
  }

  /** The three edits the reducer applies to the file list of a matching character. */
  datatype FileEdit = Append(file: AudioFile) | Remove(fileId: string) | Replace(file: AudioFile)

  function EditFiles(files: seq<AudioFile>, e: FileEdit): seq<AudioFile>
  {
    match e
    case Append(f) => files + [f]
    case Remove(fileId) => Seqs.Filter(files, (f: AudioFile) => f.id != fileId)
    case Replace(nf) => seq(|files|, i requires 0 <= i < |files| => if files[i].id == nf.id then nf else files[i])
  }

  /** `characters.filter(c => c.id !== id)` */
  function WithoutCharacter(cs: seq<Character>, id: string): seq<Character>
  {
    Seqs.Filter(cs, (c: Character) => c.id != id)
  }

  /** `characters.map(c => c.id === replacement.id ? replacement : c)` */
  function ReplaceCharacter(cs: seq<Character>, replacement: Character): seq<Character>
  {
    seq(|cs|, i requires 0 <= i < |cs| => if cs[i].id == replacement.id then replacement else cs[i])
  }

  /** Applies `e` to the file list of every character whose id is `characterId`. */
  function EditCharacterFiles(cs: seq<Character>, characterId: string, e: FileEdit): seq<Character>
  {
    seq(|cs|, i requires 0 <= i < |cs| =>
      if cs[i].id == characterId then cs[i].(audioFiles := EditFiles(cs[i].audioFiles, e)) else cs[i])
  }

  /** `appReducer`: the new state after `a`. */
  function Reduce(s: AppState, a: Action): (r: AppState)
    ensures r.selectedCharacterId != s.selectedCharacterId ==> a.SelectCharacter? || a.DeleteCharacter?
    ensures |r.characters| > |s.characters| ==> a.AddCharacter? && |r.characters| == |s.characters| + 1
  {
    match a
    case AddCharacter(name, newId) =>
      // the new record has no `selected` field, stored here as false: the export dialog reads
      // the absence as false, while the panel's checkbox gets `undefined` and is uncontrolled
      s.(characters := s.characters + [Character(newId, name, false, [])])
    case DeleteCharacter(id) =>
      AppState(WithoutCharacter(s.characters, id),
               if s.selectedCharacterId == Some(id) then None else s.selectedCharacterId)
    case UpdateCharacter(c) =>
      s.(characters := ReplaceCharacter(s.characters, c))
    case SelectCharacter(focus) =>
      s.(selectedCharacterId := focus)
    case AddAudioFile(characterId, f) =>
      s.(characters := EditCharacterFiles(s.characters, characterId, Append(f)))
    case DeleteAudioFile(characterId, fileId) =>
      s.(characters := EditCharacterFiles(s.characters, characterId, Remove(fileId)))
    case UpdateAudioFile(characterId, f) =>
      s.(characters := EditCharacterFiles(s.characters, characterId, Replace(f)))
    case Unrecognized(_) =>
      s
  }

  predicate HasCharacterId(cs: seq<Character>, id: string)
  {
    exists c :: c in cs && c.id == id
  }

  function NameCount(files: seq<AudioFile>, name: string): nat
  {
    if files == [] then 0 else (if files[0].name == name then 1 else 0) + NameCount(files[1..], name)
  }

  // ---------------------------------------------------------------------------------------
  // ADD_CHARACTER

  /** One character is appended at the end with the given name and no files; the rest stays. */
  lemma AddCharacterAppends(s: AppState, name: string, newId: string)
    ensures var r := Reduce(s, AddCharacter(name, newId));
      && |r.characters| == |s.characters| + 1
      && r.characters[..|s.characters|] == s.characters
      && r.characters[|s.characters|] == Character(newId, name, false, [])
      && r.selectedCharacterId == s.selectedCharacterId
  {
    var r := Reduce(s, AddCharacter(name, newId));
    assert r.characters[..|s.characters|] == s.characters;
  }

  /** Deleting a freshly added character by its new id gives back the state before the add. */
  lemma AddThenDeleteRestores(s: AppState, name: string, newId: string)
    requires !HasCharacterId(s.characters, newId)
    requires s.selectedCharacterId != Some(newId)
    ensures Reduce(Reduce(s, AddCharacter(name, newId)), DeleteCharacter(newId)) == s
  {
    var keep := (c: Character) => c.id != newId;
    var added := Character(newId, name, false, []);
    Seqs.FilterAppend(s.characters, [added], keep);
    Seqs.FilterKeepsAll(s.characters, keep);
    assert Seqs.Filter([added], keep) == [];
  }

  // ---------------------------------------------------------------------------------------
  // DELETE_CHARACTER

  /**
   * Exactly the characters with that id disappear, the others keep their relative order
   * (deletion distributes over any split of the list), and the focus is cleared iff it was
   * that id.
   */
  lemma DeleteCharacterRemoves(s: AppState, id: string, front: seq<Character>, back: seq<Character>)
    requires s.characters == front + back
    ensures var r := Reduce(s, DeleteCharacter(id));
      && (forall c :: c in r.characters <==> c in s.characters && c.id != id)
      && r.characters == WithoutCharacter(front, id) + WithoutCharacter(back, id)
      && (r.selectedCharacterId == None <==> s.selectedCharacterId == None || s.selectedCharacterId == Some(id))
      && (s.selectedCharacterId != Some(id) ==> r.selectedCharacterId == s.selectedCharacterId)
  {
    Seqs.FilterAppend(front, back, (c: Character) => c.id != id);
  }

  /** Deleting an id no character has leaves the character list as it was. */
  lemma DeleteAbsentCharacterKeepsList(s: AppState, id: string)
    requires !HasCharacterId(s.characters, id)
    ensures Reduce(s, DeleteCharacter(id)).characters == s.characters
  {
    Seqs.FilterKeepsAll(s.characters, (c: Character) => c.id != id);
  }

  // ---------------------------------------------------------------------------------------
  // UPDATE_CHARACTER

  /**
   * Every character with the payload's id is replaced by the payload, the others and the
   * focus stay, the length is unchanged; applying the same update twice is applying it once.
   */
  lemma UpdateCharacterReplaces(s: AppState, c: Character)
    ensures var r := Reduce(s, UpdateCharacter(c));
      && |r.characters| == |s.characters|
      && r.selectedCharacterId == s.selectedCharacterId
      && (forall i :: 0 <= i < |s.characters| && s.characters[i].id == c.id ==> r.characters[i] == c)
      && (forall i :: 0 <= i < |s.characters| && s.characters[i].id != c.id ==> r.characters[i] == s.characters[i])
      && Reduce(r, UpdateCharacter(c)) == r
  {
  }

  /** An update whose id no character has changes nothing. */
  lemma UpdateAbsentCharacterIsNoOp(s: AppState, c: Character)
    requires !HasCharacterId(s.characters, c.id)
    ensures Reduce(s, UpdateCharacter(c)) == s
  {
    var r := Reduce(s, UpdateCharacter(c));
    forall i | 0 <= i < |s.characters|
      ensures r.characters[i] == s.characters[i]
    {
      assert s.characters[i] in s.characters;
    }
  }

  // ---------------------------------------------------------------------------------------
  // SELECT_CHARACTER

  /** Selection sets the focus to the payload, existing or not, and touches no character. */
  lemma SelectCharacterSetsFocus(s: AppState, focus: Option<string>)
    ensures var r := Reduce(s, SelectCharacter(focus));
      r.characters == s.characters && r.selectedCharacterId == focus
  {
  }

  // ---------------------------------------------------------------------------------------
  // ADD_AUDIO_FILE / DELETE_AUDIO_FILE / UPDATE_AUDIO_FILE

  /** Characters whose id is not the target are identical after any file action on the target. */
  lemma FileActionSparesOthers(s: AppState, characterId: string, e: FileEdit)
    ensures var r := s.(characters := EditCharacterFiles(s.characters, characterId, e));
      && |r.characters| == |s.characters|
      && (forall i :: 0 <= i < |s.characters| && s.characters[i].id != characterId ==>
            r.characters[i] == s.characters[i])
      && (forall i :: 0 <= i < |s.characters| ==>
            r.characters[i] == s.characters[i].(audioFiles := r.characters[i].audioFiles))
  {
  }

  /**
   * The file is appended to every character with the target id, with no de-duplication:
   * afterwards that character holds one more file of that name; other characters are identical.
   */
  lemma AddAudioFileAppends(s: AppState, characterId: string, f: AudioFile)
    ensures var r := Reduce(s, AddAudioFile(characterId, f));
      && |r.characters| == |s.characters|
      && r.selectedCharacterId == s.selectedCharacterId
      && (forall i :: 0 <= i < |s.characters| && s.characters[i].id != characterId ==>
            r.characters[i] == s.characters[i])
      && (forall i :: 0 <= i < |s.characters| && s.characters[i].id == characterId ==>
            && r.characters[i].audioFiles == s.characters[i].audioFiles + [f]
            && NameCount(r.characters[i].audioFiles, f.name) == NameCount(s.characters[i].audioFiles, f.name) + 1)
  {
    forall i | 0 <= i < |s.characters| && s.characters[i].id == characterId
      ensures NameCount(s.characters[i].audioFiles + [f], f.name) == NameCount(s.characters[i].audioFiles, f.name) + 1
    {
      NameCountAppend(s.characters[i].audioFiles, [f], f.name);
    }
  }

  lemma {:induction false} NameCountAppend(a: seq<AudioFile>, b: seq<AudioFile>, name: string)
    ensures NameCount(a + b, name) == NameCount(a, name) + NameCount(b, name)
  {
    if a == [] {
      assert a + b == b;
    } else {
      assert (a + b)[1..] == a[1..] + b;
      NameCountAppend(a[1..], b, name);
    }
  }

  /**
   * Deleting, by its id, a file just added under an id that no file of the target character
   * had gives back the state before the add.
   */
  lemma AddThenDeleteAudioFileRestores(s: AppState, characterId: string, f: AudioFile)
    requires forall c :: c in s.characters && c.id == characterId ==>
               forall g :: g in c.audioFiles ==> g.id != f.id
    ensures Reduce(Reduce(s, AddAudioFile(characterId, f)), DeleteAudioFile(characterId, f.id)) == s
  {
    var r := Reduce(Reduce(s, AddAudioFile(characterId, f)), DeleteAudioFile(characterId, f.id));
    var keep := (g: AudioFile) => g.id != f.id;
    forall i | 0 <= i < |s.characters|
      ensures r.characters[i] == s.characters[i]
    {
      var c := s.characters[i];
      if c.id == characterId {
        assert c in s.characters;
        Seqs.FilterAppend(c.audioFiles, [f], keep);
        Seqs.FilterKeepsAll(c.audioFiles, keep);
        assert Seqs.Filter([f], keep) == [];
      }
    }
  }

  /** Only the target character loses files: exactly those with the given file id. */
  lemma DeleteAudioFileRemoves(s: AppState, characterId: string, fileId: string)
    ensures var r := Reduce(s, DeleteAudioFile(characterId, fileId));
      && |r.characters| == |s.characters|
      && r.selectedCharacterId == s.selectedCharacterId
      && (forall i :: 0 <= i < |s.characters| && s.characters[i].id != characterId ==>
            r.characters[i] == s.characters[i])
      && (forall i, g :: 0 <= i < |s.characters| && s.characters[i].id == characterId ==>
            (g in r.characters[i].audioFiles <==> g in s.characters[i].audioFiles && g.id != fileId))
  {
  }

  /**
   * On the target, file removal keeps the surviving files in their order: it distributes over
   * any split of the target's file list.
   */
  lemma DeleteAudioFileKeepsOrder(s: AppState, characterId: string, fileId: string, i: nat,
                                  front: seq<AudioFile>, back: seq<AudioFile>)
    requires i < |s.characters| && s.characters[i].id == characterId
    requires s.characters[i].audioFiles == front + back
    ensures var keep := (f: AudioFile) => f.id != fileId;
      Reduce(s, DeleteAudioFile(characterId, fileId)).characters[i].audioFiles
        == Seqs.Filter(front, keep) + Seqs.Filter(back, keep)
  {
    Seqs.FilterAppend(front, back, (f: AudioFile) => f.id != fileId);
  }

  /**
   * The target character's files with the payload's id are replaced by the payload; every
   * character keeps its file count; other characters are identical.
   */
  lemma UpdateAudioFileReplaces(s: AppState, characterId: string, f: AudioFile)
    ensures var r := Reduce(s, UpdateAudioFile(characterId, f));
      && |r.characters| == |s.characters|
      && r.selectedCharacterId == s.selectedCharacterId
      && (forall i :: 0 <= i < |s.characters| ==>
            |r.characters[i].audioFiles| == |s.characters[i].audioFiles|)
      && (forall i :: 0 <= i < |s.characters| && s.characters[i].id != characterId ==>
            r.characters[i] == s.characters[i])
      && (forall i, j :: 0 <= i < |s.characters| && s.characters[i].id == characterId && 0 <= j < |s.characters[i].audioFiles| ==>
            r.characters[i].audioFiles[j] ==
              if s.characters[i].audioFiles[j].id == f.id then f else s.characters[i].audioFiles[j])
  {
  }

  /** An update whose file id the target character does not hold changes nothing. */
  lemma UpdateAbsentAudioFileIsNoOp(s: AppState, characterId: string, f: AudioFile)
    requires forall c :: c in s.characters && c.id == characterId ==>
               forall g :: g in c.audioFiles ==> g.id != f.id
    ensures Reduce(s, UpdateAudioFile(characterId, f)) == s
  {
    var r := Reduce(s, UpdateAudioFile(characterId, f));
    forall i | 0 <= i < |s.characters|
      ensures r.characters[i] == s.characters[i]
    {
      var c := s.characters[i];
      if c.id == characterId {
        assert c in s.characters;
        forall j | 0 <= j < |c.audioFiles|
          ensures r.characters[i].audioFiles[j] == c.audioFiles[j]
        {
          assert c.audioFiles[j] in c.audioFiles;
        }
      }
    }
  }

  /** The default case: an action of any other type returns the state it was given. */
  lemma UnrecognizedKeepsState(s: AppState, tag: string)
    ensures Reduce(s, Unrecognized(tag)) == s
  {
  }

  /**
   * The store behind `useReducer(appReducer, initialState)`: the one piece of shared state,
   * replaced wholesale by every dispatch.
   */
  class Store {
    var state: AppState

    constructor ()
      ensures state == InitialState()
    {
      state := InitialState();
    }

    method Dispatch(a: Action)
      modifies this
      ensures state == Reduce(old(state), a)
    {
      state := Reduce(state, a);
    }
  }
}
