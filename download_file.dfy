/**
 * The upload panel (src/components/DownloadFile.tsx): its listing effect,
 * which parses each key into a timestamp and a file name, the stored name
 * `timestamp-name` of `uploadFile`, and the panel's state cells — staged
 * file, progress, upload list and upload flag — as `addFile`, `uploadFile`
 * and `removeFile` change them. Login state comes from the auth context.
 */
module DownloadFile {
  import opened Wrappers
  import opened JsText
  import opened Uploads
  import opened Session

  /** A row of the panel's table. */
  datatype UploadData = UploadData(key: string, filename: string, timestamp: JsNumber)

  // ---------------------------------------------------------------------------
  // key parsing and the stored name
  // ---------------------------------------------------------------------------

  /**
   * `const [timestamp, ...filename] = key.split("-")`: the first `-`-piece
   * read as a number, the other pieces concatenated with nothing between.
   */
  function ParseKey(key: string): UploadData {
    var pieces := Split(key, '-');
    UploadData(key, Join(pieces[1..], ""), ToNumber(pieces[0]))
  }

  /**
   * A key parses at its first `-`: the timestamp is the text before it, the
   * file name everything after it with every further `-` removed.
   */
  lemma ParseKeyAtFirstHyphen(head: string, tail: string)
    requires '-' !in head
    ensures ParseKey(head + "-" + tail) == UploadData(head + "-" + tail, DropChar(tail, '-'), ToNumber(head))
  {
    SplitAround(head, '-', tail);
    SplitWithoutSeparator(head, '-');
    var pieces := Split(head + "-" + tail, '-');
    assert pieces == [head] + Split(tail, '-');
    assert pieces[1..] == Split(tail, '-');
    ConcatSplit(tail, '-');
  }

  /** A key without `-` is all timestamp: the file name is empty. */
  lemma ParseKeyWithoutHyphen(key: string)
    requires '-' !in key
    ensures ParseKey(key) == UploadData(key, "", ToNumber(key))
  {
    SplitWithoutSeparator(key, '-');
  }

  /** `[timestamp, file.name].join("-")`: the name `uploadFile` stores a file under. */
  function StoredName(timestamp: nat, name: string): string {
    Join([NumberToString(timestamp), name], "-")
  }

  /**
   * The parser reads a bare stored name back as the timestamp and the
   * original name without its hyphens.
   */
  lemma StoredNameParses(timestamp: nat, name: string)
    ensures var parsed := ParseKey(StoredName(timestamp, name));
      parsed.timestamp == Finite(timestamp) && parsed.filename == DropChar(name, '-')
  {
    var digits := NumberToString(timestamp);
    JoinCons(digits, [name], "-");
    assert StoredName(timestamp, name) == digits + "-" + name;
    assert '-' !in digits by {
      forall i | 0 <= i < |digits| ensures digits[i] != '-' {
        assert IsDigit(digits[i]);
      }
    }
    ParseKeyAtFirstHyphen(digits, name);
    NumberRoundTrip(timestamp);
  }

  /** A key that starts with `/` — every key under `/uploads/` — has no numeric timestamp. */
  lemma PathKeyHasNoTimestamp(key: string)
    requires key != [] && key[0] == '/'
    ensures ParseKey(key).timestamp == NaN
  {
    var pieces := Split(key, '-');
    var rest := Split(key[1..], '-');
    assert pieces == [[key[0]] + rest[0]] + rest[1..];
    ToNumberNaN(pieces[0], 0);
  }

  /**
   * The key `/uploads/abc/1-a.txt` lists as the file name `a.txt` with a NaN
   * timestamp: the number is read from `/uploads/abc/1`, path included.
   */
  lemma ListedKeyExample()
    ensures ParseKey("/uploads/abc/1-a.txt") == UploadData("/uploads/abc/1-a.txt", "a.txt", NaN)
  {
    assert "/uploads/abc/1-a.txt" == "/uploads/abc/1" + "-" + "a.txt";
    ParseKeyAtFirstHyphen("/uploads/abc/1", "a.txt");
    ToNumberNaN("/uploads/abc/1", 0);
  }

  // ---------------------------------------------------------------------------
  // listing
  // ---------------------------------------------------------------------------

  /**
   * The listing chain: the rows are, in order, the parsed keys of a
   * newest-first permutation of the assets under the principal's prefix.
   */
  function ListDownloads(assets: seq<Asset>, principal: Option<string>): (rows: seq<UploadData>)
    ensures exists sorted: seq<Asset> :: IsNewestFirstOrderOf(sorted, KeepOwned(assets, ListingPrefix(principal)))
                          && |sorted| == |rows| && forall i :: 0 <= i < |rows| ==> rows[i] == ParseKey(sorted[i].key)
  {
    var sorted := SortByRecency(KeepOwned(assets, ListingPrefix(principal)));
    assert IsNewestFirstOrderOf(sorted, KeepOwned(assets, ListingPrefix(principal)));
    seq(|sorted|, i requires 0 <= i < |sorted| => ParseKey(sorted[i].key))
  }

  /**
   * Every listed row keeps a key of an owned asset, and, since that key
   * starts with `/uploads/`, its timestamp is NaN.
   */
  lemma ListedRow(assets: seq<Asset>, principal: Option<string>)
    ensures var rows := ListDownloads(assets, principal);
      forall i :: 0 <= i < |rows| ==>
        && StartsWith(rows[i].key, ListingPrefix(principal))
        && (exists a :: a in assets && a.key == rows[i].key)
        && rows[i].timestamp == NaN
  {
    var owned := KeepOwned(assets, ListingPrefix(principal));
    var rows := ListDownloads(assets, principal);
    var sorted: seq<Asset> :| IsNewestFirstOrderOf(sorted, owned) && |sorted| == |rows|
                  && forall j :: 0 <= j < |rows| ==> rows[j] == ParseKey(sorted[j].key);
    forall i | 0 <= i < |rows|
      ensures && StartsWith(rows[i].key, ListingPrefix(principal))
              && (exists a :: a in assets && a.key == rows[i].key)
              && rows[i].timestamp == NaN
    {
      var a := sorted[i];
      assert a in multiset(sorted);
      assert a in owned;
      assert rows[i] == ParseKey(a.key);
      assert rows[i].key == a.key;
      PathKeyHasNoTimestamp(a.key);
    }
  }

  // ---------------------------------------------------------------------------
  // the panel's state
  // ---------------------------------------------------------------------------

  /** The key of a row, as a function value for the removal filter. */
  function DataKey(u: UploadData): string {
    u.key
  }

  class DownloadFileView {
    var file: Option<File>
    var progress: Progress
    var uploads: seq<UploadData>
    var isUploading: bool

    /** Between handlers no upload is in flight. */
    ghost predicate Valid()
      reads this
    {
      !isUploading
    }

    constructor ()
      ensures Valid()
      ensures file == None && progress == Zero && uploads == []
    {
      file := None;
      progress := Zero;
      uploads := [];
      isUploading := false;
    }

    /**
     * The listing effect: logged out, the rows are cleared; logged in with an
     * asset manager, they become the listing of the assets `list()` resolved
     * with; otherwise, or when `list()` rejects, they stay.
     */
    method Refresh(auth: AuthValues, listed: Option<seq<Asset>>)
      modifies this
      ensures !auth.isLogin ==> uploads == []
      ensures auth.isLogin && auth.assetManager.Some? && listed.Some? ==>
        uploads == ListDownloads(listed.value, PrincipalOf(auth.identity))
      ensures auth.isLogin && !(auth.assetManager.Some? && listed.Some?) ==> uploads == old(uploads)
      ensures file == old(file) && progress == old(progress) && isUploading == old(isUploading)
    {
      if auth.isLogin {
        if auth.assetManager.Some? && listed.Some? {
          uploads := ListDownloads(listed.value, PrincipalOf(auth.identity));
        }
      } else {
        uploads := [];
      }
    }

    /** `addFile` and its `onchange`: stages the first chosen file, if any was chosen. */
    method AddFile(chosen: Option<seq<File>>)
      modifies this
      ensures file == if chosen.Some? && |chosen.value| > 0 then Some(chosen.value[0]) else old(file)
      ensures progress == old(progress) && uploads == old(uploads) && isUploading == old(isUploading)
    {
      if chosen.Some? && |chosen.value| > 0 {
        file := Some(chosen.value[0]);
      }
    }

    /** The clear button of the file field: unstages the file. */
    method ClearFile()
      modifies this
      ensures file == None
      ensures progress == old(progress) && uploads == old(uploads) && isUploading == old(isUploading)
    {
      file := None;
    }

    /**
     * `uploadFile()`: nothing unless an asset manager exists, the user is
     * logged in and a file is staged. Otherwise the file is stored as
     * `now-name` under `/uploads/<principal>`; once `store` resolves the
     * progress cell follows the commit's reports; when the commit completes
     * the new row goes first. Errors are swallowed, and the upload flag and
     * the staged file are reset on every path.
     */
    method UploadFile(auth: AuthValues, now: nat, stored: Settled<string>, committed: Completion, reports: seq<Report>)
      returns (request: Option<StoreRequest>)
      modifies this
      ensures var proceeds := auth.assetManager.Some? && auth.isLogin && old(file).Some?;
        && (!proceeds ==> request == None && unchanged(this))
        && (proceeds ==>
             && request == Some(StoreRequest(UploadPath(PrincipalOf(auth.identity)), StoredName(now, old(file).value.name)))
             && !isUploading && file == None
             && progress == (if stored.Resolved? then LastProgress(reports) else Zero)
             && uploads == if stored.Resolved? && committed.Completed?
                           then [UploadData(stored.value, old(file).value.name, Finite(now))] + old(uploads)
                           else old(uploads))
      ensures old(Valid()) ==> Valid()
    {
      if auth.assetManager.None? || !auth.isLogin {
        return None;
      }
      if file.None? {
        return None;
      }
      var f := file.value;
      progress := Zero;
      isUploading := true;
      request := Some(StoreRequest(UploadPath(PrincipalOf(auth.identity)), StoredName(now, f.name)));
      match stored {
        case Rejected(_) =>
        case Resolved(key) =>
          for i := 0 to |reports|
            invariant progress == LastProgress(reports[..i])
            invariant file == old(file) && uploads == old(uploads) && isUploading
          {
            progress := Ratio(reports[i].current, reports[i].total);
          }
          assert reports[..|reports|] == reports;
          if committed.Completed? {
            uploads := [UploadData(key, f.name, Finite(now))] + uploads;
          }
      }
      isUploading := false;
      file := None;
    }

    /**
     * `removeFile(key)`: when logged in with an asset manager, asks the store
     * to delete the key (returned as `requested`) and, once that completes,
     * drops the rows with that key. Otherwise, or when the delete fails,
     * the rows stay.
     */
    method RemoveFile(auth: AuthValues, key: string, deleted: Completion) returns (requested: bool)
      modifies this
      ensures requested <==> auth.isLogin && auth.assetManager.Some?
      ensures uploads == if requested && deleted.Completed? then WithoutKey(old(uploads), DataKey, key) else old(uploads)
      ensures file == old(file) && progress == old(progress) && isUploading == old(isUploading)
    {
      requested := auth.isLogin && auth.assetManager.Some?;
      if requested && deleted.Completed? {
        uploads := WithoutKey(uploads, DataKey, key);
      }
    }
  }
}
