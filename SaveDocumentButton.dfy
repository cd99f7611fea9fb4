/** The save button (`SaveDocumentButton.tsx`): the folder-id check and the
    state machine its two click handlers drive. Each handler runs as one
    atomic step; what the saved-document service answers is a parameter, and
    the calls made to it are recorded in order. */
module SaveDocumentButton {
  import opened Wrappers
  import opened Text

  datatype User = User(id: string)

  datatype Folder = Folder(id: string, name: string)

  /** The saved-document service calls, with exactly the arguments passed. */
  datatype ServiceCall =
    | IsDocumentSaved(userId: string)
    | GetFolders
    | RemoveSavedDocument(userId: string)
    | SaveDocument(userId: string, documentId: string)

  predicate IsHexDigit(c: char) {
    '0' <= c <= '9' || 'a' <= c <= 'f' || 'A' <= c <= 'F'
  }

  predicate HexGroup(g: string, n: nat) {
    |g| == n && forall i :: 0 <= i < |g| ==> IsHexDigit(g[i])
  }

  /** The folder-id pattern: five groups of 8, 4, 4, 4 and 12 hexadecimal
      digits joined by `-`, anchored at both ends, letters in either case. */
  predicate IsUuid(s: string) {
    |s| == 36 &&
    HexGroup(s[0..8], 8) && s[8] == '-' &&
    HexGroup(s[9..13], 4) && s[13] == '-' &&
    HexGroup(s[14..18], 4) && s[18] == '-' &&
    HexGroup(s[19..23], 4) && s[23] == '-' &&
    HexGroup(s[24..36], 12)
  }

  predicate IsDashPosition(i: int) {
    i == 8 || i == 13 || i == 18 || i == 23
  }

  /** The textual UUID layout of section 3 of RFC 4122, position by position:
      36 characters, `-` at offsets 8, 13, 18 and 23, a hexadecimal digit
      everywhere else. Version and variant digits are not constrained. */
  predicate UuidLayout(s: string) {
    |s| == 36 &&
    forall i :: 0 <= i < |s| ==> if IsDashPosition(i) then s[i] == '-' else IsHexDigit(s[i])
  }

  lemma HexGroupAt(s: string, lo: nat, hi: nat)
    requires lo <= hi <= |s|
    ensures HexGroup(s[lo..hi], hi - lo) <==> forall i :: lo <= i < hi ==> IsHexDigit(s[i])
  {
    if forall i :: lo <= i < hi ==> IsHexDigit(s[i]) {
      forall j | 0 <= j < hi - lo ensures IsHexDigit(s[lo..hi][j]) {
        assert s[lo..hi][j] == s[lo + j];
      }
    }
    if HexGroup(s[lo..hi], hi - lo) {
      forall i | lo <= i < hi ensures IsHexDigit(s[i]) {
        assert s[i] == s[lo..hi][i - lo];
      }
    }
  }

  /** The grouped pattern and the positional layout accept the same
      strings. */
  lemma UuidMatchesLayout(s: string)
    ensures IsUuid(s) <==> UuidLayout(s)
  {
    if |s| == 36 {
      HexGroupAt(s, 0, 8);
      HexGroupAt(s, 9, 13);
      HexGroupAt(s, 14, 18);
      HexGroupAt(s, 19, 23);
      HexGroupAt(s, 24, 36);
      if UuidLayout(s) {
        assert IsDashPosition(8) && IsDashPosition(13) && IsDashPosition(18) && IsDashPosition(23);
      }
    }
  }

  /** The pattern is case-insensitive: a string matches exactly when its
      lower-case form does. */
  lemma UuidIgnoresCase(s: string)
    ensures IsUuid(s) <==> IsUuid(ToLower(s))
  {
    var t := ToLower(s);
    UuidMatchesLayout(s);
    UuidMatchesLayout(t);
    forall i | 0 <= i < |s|
      ensures (s[i] == '-' <==> t[i] == '-') && (IsHexDigit(s[i]) <==> IsHexDigit(t[i]))
    {
    }
  }

  /** A matching id is made of ASCII characters only. */
  lemma UuidIsAscii(s: string)
    requires IsUuid(s)
    ensures forall i :: 0 <= i < |s| ==> s[i] as int < 128
  {
    UuidMatchesLayout(s);
    forall i | 0 <= i < |s| ensures s[i] as int < 128 {
      assert IsDashPosition(i) ==> s[i] == '-';
    }
  }

  /** Five hexadecimal groups of the right lengths joined by `-` match. */
  lemma UuidFromGroups(s: string, a: string, b: string, c: string, d: string, e: string)
    requires HexGroup(a, 8) && HexGroup(b, 4) && HexGroup(c, 4) && HexGroup(d, 4) && HexGroup(e, 12)
    requires s == a + "-" + b + "-" + c + "-" + d + "-" + e
    ensures IsUuid(s)
  {
    assert s[0..8] == a && s[9..13] == b && s[14..18] == c && s[19..23] == d && s[24..36] == e;
  }

  /** `folderIdToSave`: an absent, empty or `"none"` selection gives no
      folder; a selection matching the pattern is kept as it is; any other
      string gives no folder either. */
  function NormalizeFolderId(selected: Option<string>): (r: Option<string>)
    ensures r.Some? <==> selected.Some? && UuidLayout(selected.value)
    ensures r.Some? ==> r == selected
    ensures selected == Some("none") ==> r == None
  {
    if selected.Some? then
      UuidMatchesLayout(selected.value);
      if selected.value != "" && selected.value != "none" && IsUuid(selected.value) then selected
      else None
    else None
  }

  /** A folder id with an upper-case group is kept as it is. */
  lemma MixedCaseFolderIdKept(s: string, a: string, b: string, c: string, d: string, e: string)
    requires a == "123e4567" && b == "E89B" && c == "12d3" && d == "a456" && e == "426614174000"
    requires s == a + "-" + b + "-" + c + "-" + d + "-" + e
    ensures NormalizeFolderId(Some(s)) == Some(s)
  {
    UuidFromGroups(s, a, b, c, d, e);
  }

  /** Every `setLoading` value written so far comes in `true`, `false`
      pairs: each path that raised the flag lowered it again. */
  predicate LoadingPaired(writes: seq<bool>) {
    |writes| % 2 == 0 && forall i :: 0 <= i < |writes| ==> writes[i] == (i % 2 == 0)
  }

  lemma {:induction false} LoadingPairedAppend(writes: seq<bool>)
    requires LoadingPaired(writes)
    ensures LoadingPaired(writes + [true, false])
    ensures !LoadingPaired(writes + [true])
  {
    var w := writes + [true, false];
    forall i | 0 <= i < |w| ensures w[i] == (i % 2 == 0) {
      if i >= |writes| {
        assert w[i] == (i == |writes|);
      }
    }
    assert (|writes| + 1) % 2 == 1;
  }

  /** The state `SaveDocumentButton` keeps for one document. */
  class SaveButton {
    const documentId: string
    var saved: bool
    var loading: bool
    var showDialog: bool
    var folders: seq<Folder>
    var selectedFolder: Option<string>
    /** The service calls made so far, in order. */
    ghost var calls: seq<ServiceCall>
    /** Every value written to `loading`, in order. */
    ghost var loadingWrites: seq<bool>

    /** Between two events the button is enabled: no handler is midway. */
    ghost predicate Valid()
      reads this
    {
      !loading && LoadingPaired(loadingWrites)
    }

    constructor (documentId: string)
      ensures Valid()
      ensures this.documentId == documentId
      ensures !saved && !showDialog && folders == [] && selectedFolder == None
      ensures calls == [] && loadingWrites == []
    {
      this.documentId := documentId;
      saved := false;
      loading := false;
      showDialog := false;
      folders := [];
      selectedFolder := None;
      calls := [];
      loadingWrites := [];
    }

    /** `checkSavedStatus`: asks the service with the user's id alone and
        takes its answer; a failed call leaves `saved` as it was. */
    method CheckSavedStatus(user: Option<User>, answer: Option<bool>)
      requires Valid()
      modifies this`saved, this`calls
      ensures Valid()
      ensures user.None? ==> saved == old(saved) && calls == old(calls)
      ensures user.Some? ==> calls == old(calls) + [IsDocumentSaved(user.value.id)]
      ensures user.Some? ==> saved == if answer.Some? then answer.value else old(saved)
    {
      if user.None? {
        return;
      }
      calls := calls + [IsDocumentSaved(user.value.id)];
      if answer.Some? {
        saved := answer.value;
      }
    }

    /** `loadFolders`: asks for the folder list without any argument; a
        failed call keeps the old list. */
    method LoadFolders(user: Option<User>, answer: Option<seq<Folder>>)
      requires Valid()
      modifies this`folders, this`calls
      ensures Valid()
      ensures user.None? ==> folders == old(folders) && calls == old(calls)
      ensures user.Some? ==> calls == old(calls) + [GetFolders]
      ensures user.Some? ==> folders == if answer.Some? then answer.value else old(folders)
    {
      if user.None? {
        return;
      }
      calls := calls + [GetFolders];
      if answer.Some? {
        folders := answer.value;
      }
    }

    /** `handleSaveClick`. Without a user nothing changes and no call is
        made. A saved document is removed (with the user's id alone) under
        the loading flag, which is lowered whatever the outcome; only a
        successful removal clears `saved`, and the dialog is left alone. An
        unsaved document loads the folders and opens the dialog. */
    method HandleSaveClick(user: Option<User>, removeSucceeded: bool, folderAnswer: Option<seq<Folder>>)
      requires Valid()
      modifies this`saved, this`loading, this`loadingWrites, this`showDialog, this`folders, this`calls
      ensures Valid()
      ensures selectedFolder == old(selectedFolder)
      ensures user.None? ==>
        saved == old(saved) && showDialog == old(showDialog) && folders == old(folders) &&
        calls == old(calls) && loadingWrites == old(loadingWrites)
      ensures user.Some? && old(saved) ==>
        calls == old(calls) + [RemoveSavedDocument(user.value.id)] &&
        loadingWrites == old(loadingWrites) + [true, false] &&
        saved == !removeSucceeded && showDialog == old(showDialog) && folders == old(folders)
      ensures user.Some? && !old(saved) ==>
        calls == old(calls) + [GetFolders] &&
        folders == (if folderAnswer.Some? then folderAnswer.value else old(folders)) &&
        loadingWrites == old(loadingWrites) && !saved && showDialog
    {
      if user.None? {
        return;
      }
      if saved {
        loading := true;
        loadingWrites := loadingWrites + [true];
        calls := calls + [RemoveSavedDocument(user.value.id)];
        if removeSucceeded {
          saved := false;
        }
        LoadingPairedAppend(old(loadingWrites));
        loading := false;
        loadingWrites := loadingWrites + [false];
      } else {
        LoadFolders(user, folderAnswer);
        showDialog := true;
      }
    }

    /** `handleSaveToFolder`. Without a user nothing changes. Otherwise the
        folder id is normalised but not used: the save call carries only the
        user's id and the document id. Success marks the document saved and
        closes the dialog; failure leaves both as they were; the loading flag
        is lowered either way. */
    method HandleSaveToFolder(user: Option<User>, saveSucceeded: bool)
      requires Valid()
      modifies this`saved, this`loading, this`loadingWrites, this`showDialog, this`calls
      ensures Valid()
      ensures folders == old(folders) && selectedFolder == old(selectedFolder)
      ensures user.None? ==>
        saved == old(saved) && showDialog == old(showDialog) &&
        calls == old(calls) && loadingWrites == old(loadingWrites)
      ensures user.Some? ==>
        calls == old(calls) + [SaveDocument(user.value.id, documentId)] &&
        loadingWrites == old(loadingWrites) + [true, false] &&
        saved == (saveSucceeded || old(saved)) &&
        showDialog == (!saveSucceeded && old(showDialog))
    {
      if user.None? {
        return;
      }
      loading := true;
      loadingWrites := loadingWrites + [true];
      var folderIdToSave := NormalizeFolderId(selectedFolder);
      calls := calls + [SaveDocument(user.value.id, documentId)];
      if saveSucceeded {
        saved := true;
        showDialog := false;
      }
      LoadingPairedAppend(old(loadingWrites));
      loading := false;
      loadingWrites := loadingWrites + [false];
    }

    /** The folder picker's change callback. */
    method SelectFolder(value: string)
      requires Valid()
      modifies this`selectedFolder
      ensures Valid() && selectedFolder == Some(value)
    {
      selectedFolder := Some(value);
    }

    /** The dialog's open/close callback and its cancel button. */
    method SetShowDialog(open: bool)
      requires Valid()
      modifies this`showDialog
      ensures Valid() && showDialog == open
    {
      showDialog := open;
    }
  }

  /** Two buttons that differ only in the folder picked make the same save
      call: the folder choice never reaches the service. */
  method FolderChoiceIgnored(documentId: string, user: User, folderA: string, folderB: string)
  {
    var a := new SaveButton(documentId);
    var b := new SaveButton(documentId);
    a.SelectFolder(folderA);
    b.SelectFolder(folderB);
    a.HandleSaveToFolder(Some(user), true);
    b.HandleSaveToFolder(Some(user), true);
    assert a.calls == b.calls == [SaveDocument(user.id, documentId)];
    assert a.saved && b.saved && !a.loading && !b.loading;
  }
}
