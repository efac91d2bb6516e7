/**
 * The character panel: adding a character under a trimmed, non-empty name, the two-step
 * delete, focusing a character by clicking its row, and what each row shows.
 */
module CharacterList {
  import opened Wrappers
  import opened Types
  import opened AppStateContext
  import AudioFileList

  /** The characters `String.prototype.trim` removes: white space and line terminators. */
  predicate IsWhitespace(ch: char)
  {
    || ch == '\t' || ch == '\n' || ch == '\U{000B}' || ch == '\U{000C}' || ch == '\r'
    || ch == ' ' || ch == '\U{00A0}' || ch == '\U{1680}'
    || ('\U{2000}' <= ch <= '\U{200A}')
    || ch == '\U{2028}' || ch == '\U{2029}' || ch == '\U{202F}' || ch == '\U{205F}'
    || ch == '\U{3000}' || ch == '\U{FEFF}'
  }

  /** Drops the leading white space: what remains is a suffix starting with a non-space. */
  function TrimStart(s: string): (r: string)
    ensures |r| <= |s| && r == s[|s| - |r|..]
    ensures forall k :: 0 <= k < |s| - |r| ==> IsWhitespace(s[k])
    ensures r != [] ==> !IsWhitespace(r[0])
  {
    if s != [] && IsWhitespace(s[0]) then TrimStart(s[1..]) else s
  }

  /** Drops the trailing white space: what remains is a prefix ending in a non-space. */
  function TrimEnd(s: string): (r: string)
    ensures |r| <= |s| && r == s[..|r|]
    ensures forall k :: |r| <= k < |s| ==> IsWhitespace(s[k])
    ensures r != [] ==> !IsWhitespace(r[|r| - 1])
  {
    if s != [] && IsWhitespace(s[|s| - 1]) then TrimEnd(s[..|s| - 1]) else s
  }

  /** `s.trim()`. */
  function Trim(s: string): (r: string)
    ensures |r| <= |s|
  {
    TrimEnd(TrimStart(s))
  }

  /**
   * The trimmed name is the stretch of `s` between its leading and trailing white space:
   * everything cut off is white space, and the result neither starts nor ends with any.
   */
  lemma TrimIsInnerSlice(s: string)
    ensures var t := Trim(s); var a := |s| - |TrimStart(s)|;
      && a + |t| <= |s| && t == s[a..a + |t|]
      && (forall k :: 0 <= k < a || a + |t| <= k < |s| ==> IsWhitespace(s[k]))
      && (t != [] ==> !IsWhitespace(t[0]) && !IsWhitespace(t[|t| - 1]))
  {
    TrimSlice(s);
    TrimCutIsWhitespace(s);
    TrimEdges(s);
  }

  lemma TrimSlice(s: string)
    ensures var t := Trim(s); var a := |s| - |TrimStart(s)|;
      a + |t| <= |s| && t == s[a..a + |t|]
  {
    PrefixOfSuffix(s, TrimStart(s), Trim(s));
  }

  /** A prefix of a suffix of `s` is a slice of `s`. */
  lemma PrefixOfSuffix<T>(s: seq<T>, u: seq<T>, t: seq<T>)
    requires |u| <= |s| && u == s[|s| - |u|..]
    requires |t| <= |u| && t == u[..|t|]
    ensures t == s[|s| - |u|..|s| - |u| + |t|]
  {
  }

  lemma TrimCutIsWhitespace(s: string)
    ensures var t := Trim(s); var a := |s| - |TrimStart(s)|;
      forall k :: 0 <= k < a || a + |t| <= k < |s| ==> IsWhitespace(s[k])
  {
    var u := TrimStart(s);
    var t := Trim(s);
    var a := |s| - |u|;
    forall k | a + |t| <= k < |s|
      ensures IsWhitespace(s[k])
    {
      assert s[k] == u[k - a];
    }
  }

  lemma TrimEdges(s: string)
    ensures var t := Trim(s); t != [] ==> !IsWhitespace(t[0]) && !IsWhitespace(t[|t| - 1])
  {
    var u := TrimStart(s);
    var t := Trim(s);
    if t != [] {
      assert t[0] == u[0];
    }
  }

  /** A name trims to nothing exactly when it is all white space (or empty). */
  lemma TrimEmptyIff(s: string)
    ensures Trim(s) == [] <==> forall k :: 0 <= k < |s| ==> IsWhitespace(s[k])
  {
    TrimIsInnerSlice(s);
    var t := Trim(s);
    if t != [] {
      assert t[0] == s[|s| - |TrimStart(s)|];
    }
  }

  /** Trimming a trimmed name changes nothing. */
  lemma TrimIdempotent(s: string)
    ensures Trim(Trim(s)) == Trim(s)
  {
    TrimIsInnerSlice(s);
  }

  /** `handleAddCharacter`'s guard and dispatch: the trimmed name, or nothing when it is empty. */
  function AddCommand(name: string, newId: string): (r: Option<Action>)
    ensures r.Some? <==> exists k :: 0 <= k < |name| && !IsWhitespace(name[k])
    ensures r.Some? ==> r.value == AddCharacter(Trim(name), newId)
  {
    TrimEmptyIff(name);
    if Trim(name) != [] then Some(AddCharacter(Trim(name), newId)) else None
  }

  /** `handleDeleteCharacter`'s guard: a pending id that is `null` or `""` is falsy. */
  function DeleteCommand(pending: Option<string>): (r: Option<Action>)
    ensures r.Some? <==> pending.Some? && pending.value != ""
    ensures r.Some? ==> r.value == DeleteCharacter(pending.value)
  {
    if pending.Some? && pending.value != "" then Some(DeleteCharacter(pending.value)) else None
  }

  /** What a row shows besides the name: the highlight and the export checkbox. */
  datatype RowView = RowView(highlighted: bool, checked: bool)

  /** A row is highlighted when its id is the focus. */
  predicate Highlighted(s: AppState, c: Character)
  {
    s.selectedCharacterId == Some(c.id)
  }

  /** A character added from the panel is appended unchecked, under a name with no outer spaces. */
  lemma AddedCharacterFromPanel(s: AppState, name: string, newId: string)
    requires AddCommand(name, newId).Some?
    ensures var r := Reduce(s, AddCommand(name, newId).value);
      var c := r.characters[|r.characters| - 1];
      && |r.characters| == |s.characters| + 1
      && c.name == Trim(name) && c.name != [] && !c.selected && c.audioFiles == []
      && !IsWhitespace(c.name[0]) && !IsWhitespace(c.name[|c.name| - 1])
      && r.selectedCharacterId == s.selectedCharacterId
  {
    var t := Trim(name);
    AddCharacterAppends(s, t, newId);
    TrimEdges(name);
    var r := Reduce(s, AddCharacter(t, newId));
    assert r.characters[|r.characters| - 1] == Character(newId, t, false, []);
  }

  /** Clicking a row highlights that row and exactly the rows sharing its id. */
  lemma SelectHighlightsClicked(s: AppState, id: string)
    ensures var r := Reduce(s, SelectCharacter(Some(id)));
      && r.characters == s.characters
      && forall c :: c in r.characters ==> (Highlighted(r, c) <==> c.id == id)
  {
  }

  /**
   * Deleting the focused character leaves no row highlighted; deleting another one keeps
   * the highlight on the same rows.
   */
  lemma DeleteKeepsHighlightRule(s: AppState, id: string)
    ensures var r := Reduce(s, DeleteCharacter(id));
      && (s.selectedCharacterId == Some(id) ==> forall c :: c in r.characters ==> !Highlighted(r, c))
      && (s.selectedCharacterId != Some(id) ==>
            forall c :: c in r.characters ==> c in s.characters && (Highlighted(r, c) <==> Highlighted(s, c)))
  {
  }

  /** The panel's component state; `store` is the shared store it dispatches to. */
  class Component {
    const store: Store
    var newCharacterName: string
    var isAddDialogOpen: bool
    var characterToDelete: Option<string>

    constructor (store: Store)
      ensures this.store == store
      ensures newCharacterName == "" && !isAddDialogOpen && characterToDelete == None
    {
      this.store := store;
      newCharacterName := "";
      isAddDialogOpen := false;
      characterToDelete := None;
    }

    /** The save button of the add dialog. */
    function SaveDisabled(): (r: bool)
      reads this
      ensures r <==> forall k :: 0 <= k < |newCharacterName| ==> IsWhitespace(newCharacterName[k])
    {
      TrimEmptyIff(newCharacterName);
      Trim(newCharacterName) == []
    }

    /** The delete dialog is open while a (truthy) id is pending. */
    function DeleteDialogOpen(): (r: bool)
      reads this
      ensures r <==> DeleteCommand(characterToDelete).Some?
    {
      characterToDelete.Some? && characterToDelete.value != ""
    }

    method OpenAddDialog()
      modifies this`isAddDialogOpen
      ensures isAddDialogOpen
    {
      isAddDialogOpen := true;
    }

    /** The add dialog's cancel button and close event; the typed name is kept. */
    method CloseAddDialog()
      modifies this`isAddDialogOpen
      ensures !isAddDialogOpen
    {
      isAddDialogOpen := false;
    }

    method SetNewCharacterName(name: string)
      modifies this`newCharacterName
      ensures newCharacterName == name
    {
      newCharacterName := name;
    }

    /**
     * `handleAddCharacter`, with `newId` the id `crypto.randomUUID()` gives the new
     * character. A name that trims to nothing changes nothing.
     */
    method HandleAddCharacter(newId: string)
      modifies this`newCharacterName, this`isAddDialogOpen, store
      ensures AddCommand(old(newCharacterName), newId).None? ==>
        && store.state == old(store.state)
        && newCharacterName == old(newCharacterName) && isAddDialogOpen == old(isAddDialogOpen)
      ensures AddCommand(old(newCharacterName), newId).Some? ==>
        && store.state == Reduce(old(store.state), AddCommand(old(newCharacterName), newId).value)
        && newCharacterName == "" && !isAddDialogOpen
    {
      var trimmed := Trim(newCharacterName);
      if trimmed != [] {
        store.Dispatch(AddCharacter(trimmed, newId));
        newCharacterName := "";
        isAddDialogOpen := false;
      }
    }

    /** `openDeleteDialog`: remember which character to delete. */
    method OpenDeleteDialog(id: string)
      modifies this`characterToDelete
      ensures characterToDelete == Some(id)
    {
      characterToDelete := Some(id);
    }

    /** `handleDeleteCharacter`: delete the pending character, if any, and forget it. */
    method HandleDeleteCharacter()
      modifies this`characterToDelete, store
      ensures DeleteCommand(old(characterToDelete)).None? ==>
        store.state == old(store.state) && characterToDelete == old(characterToDelete)
      ensures DeleteCommand(old(characterToDelete)).Some? ==>
        store.state == Reduce(old(store.state), DeleteCommand(old(characterToDelete)).value)
        && characterToDelete == None
    {
      if characterToDelete.Some? && characterToDelete.value != "" {
        store.Dispatch(DeleteCharacter(characterToDelete.value));
        characterToDelete := None;
      }
    }

    /** The delete dialog's cancel button and close event. */
    method CancelDelete()
      modifies this`characterToDelete
      ensures characterToDelete == None
    {
      characterToDelete := None;
    }

    /** `handleSelectCharacter`: clicking a row focuses its character. */
    method HandleSelectCharacter(id: string)
      modifies store
      ensures store.state == Reduce(old(store.state), SelectCharacter(Some(id)))
    {
      store.Dispatch(SelectCharacter(Some(id)));
    }

    /**
     * What row `c` shows: whether it is highlighted, and its checkbox. The checkbox is
     * given the record's flag as is; a character added from the panel has none, which the
     * model stores as `false`.
     */
    function Row(c: Character): (r: RowView)
      reads this, store
      ensures r.checked == c.selected
      ensures c in store.state.characters ==>
        var focused := AudioFileList.FindCharacter(store.state.characters, store.state.selectedCharacterId);
        (r.highlighted <==> focused.Some? && focused.value.id == c.id)
    {
      RowView(Highlighted(store.state, c), c.selected)
    }
  }

  /** Confirming a pending delete removes exactly that id; the pending id is then cleared. */
  lemma ConfirmDeleteRemovesPending(s: AppState, id: string)
    requires id != ""
    ensures var r := Reduce(s, DeleteCommand(Some(id)).value);
      && (forall c :: c in r.characters <==> c in s.characters && c.id != id)
      && r.selectedCharacterId == (if s.selectedCharacterId == Some(id) then None else s.selectedCharacterId)
  {
  }

  /** The save button is disabled exactly when pressing it would add nothing. */
  lemma SaveDisabledIff(p: Component, newId: string)
    ensures p.SaveDisabled() <==> AddCommand(p.newCharacterName, newId).None?
  {
  }
}
