/**
 * The home page (pages/index.tsx): its listing effect, the file-name
 * sanitiser of `upload`, and the page's state cells — login flag, auth
 * client, principal, agent, progress, upload flag and upload list — as
 * `updateClient`, `login`, `logout`, `upload` and `remove` change them.
 */
module HomePage {
  import opened Wrappers
  import opened JsText
  import opened Uploads
  import opened Session

  /** A row of the page's table. */
  datatype Upload = Upload(key: string, filename: string)

  // ---------------------------------------------------------------------------
  // listing
  // ---------------------------------------------------------------------------

  /** `({ key }) => ({ key, filename: key.split('/').slice(-1)[0] })`. */
  function ToUpload(a: Asset): Upload {
    Upload(a.key, LastPiece(a.key, '/'))
  }

  /**
   * The listing chain: the rows are, in order, the display records of a
   * newest-first permutation of the assets under the principal's prefix.
   */
  function ListUploads(assets: seq<Asset>, principal: Option<string>): (rows: seq<Upload>)
    ensures exists sorted :: IsNewestFirstOrderOf(sorted, KeepOwned(assets, ListingPrefix(principal)))
                          && |sorted| == |rows| && forall i :: 0 <= i < |rows| ==> rows[i] == ToUpload(sorted[i])
  {
    var sorted := SortByRecency(KeepOwned(assets, ListingPrefix(principal)));
    assert IsNewestFirstOrderOf(sorted, KeepOwned(assets, ListingPrefix(principal)));
    seq(|sorted|, i requires 0 <= i < |sorted| => ToUpload(sorted[i]))
  }

  /** Every listed row is the display record of an asset under the principal's prefix. */
  lemma ListedRow(assets: seq<Asset>, principal: Option<string>)
    ensures var rows := ListUploads(assets, principal);
      forall i :: 0 <= i < |rows| ==>
        exists a :: a in assets && StartsWith(a.key, ListingPrefix(principal)) && rows[i] == ToUpload(a)
  {
    var owned := KeepOwned(assets, ListingPrefix(principal));
    var rows := ListUploads(assets, principal);
    var sorted := SortByRecency(owned);
    assert |sorted| == |rows| && forall j :: 0 <= j < |rows| ==> rows[j] == ToUpload(sorted[j]);
    forall i | 0 <= i < |rows|
      ensures exists a :: a in assets && StartsWith(a.key, ListingPrefix(principal)) && rows[i] == ToUpload(a)
    {
      var a := sorted[i];
      assert a in multiset(sorted);
      assert a in owned;
      assert a in assets && StartsWith(a.key, ListingPrefix(principal)) && rows[i] == ToUpload(a);
    }
  }

  /**
   * A display record keeps the key, and its file name is the key's last
   * `/`-segment: a suffix without `/`, preceded by `/`.
   */
  lemma UploadRowShape(a: Asset)
    requires StartsWith(a.key, "/uploads/")
    ensures var row := ToUpload(a);
      && row.key == a.key
      && '/' !in row.filename
      && |row.filename| < |row.key|
      && row.key[|row.key| - |row.filename|..] == row.filename
      && row.key[|row.key| - |row.filename| - 1] == '/'
  {
    LastPieceIsSuffix(a.key, '/');
    assert a.key[0] == '/';
  }

  // ---------------------------------------------------------------------------
  // the stored file name
  // ---------------------------------------------------------------------------

  /** The characters a sanitised base name is made of: `[a-z0-9_]`. */
  predicate IsStoredNameChar(c: char) {
    'a' <= c <= 'z' || IsDigit(c) || c == '_'
  }

  /** Every character of `s` is a space or one of `[a-z0-9_]`. */
  predicate SpacedStoredName(s: string) {
    forall i :: 0 <= i < |s| ==> s[i] == ' ' || IsStoredNameChar(s[i])
  }

  /** Every character of `s` is one of `[a-z0-9_]`. */
  predicate StoredNameChars(s: string) {
    forall i :: 0 <= i < |s| ==> IsStoredNameChar(s[i])
  }

  /** After lower-casing, collapsing the `\W` runs to spaces leaves only spaces and `[a-z0-9_]`. */
  lemma CollapsedWordsChars(lower: string)
    requires forall i :: 0 <= i < |lower| ==> !IsUpper(lower[i])
    ensures SpacedStoredName(ReplaceRuns(lower, IsNonWordChar, ' '))
  {
    var words := ReplaceRuns(lower, IsNonWordChar, ' ');
    ReplaceRunsChars(lower, IsNonWordChar, ' ');
    forall i | 0 <= i < |words| ensures words[i] == ' ' || IsStoredNameChar(words[i]) {
      var c := words[i];
      if c != ' ' {
        assert c in words;
        assert !IsNonWordChar(c) && c in lower;
        var j :| 0 <= j < |lower| && lower[j] == c;
        assert !IsUpper(c);
      }
    }
  }

  /** Trimming keeps a contiguous part, so it keeps the character set. */
  lemma TrimKeepsSpacedStoredName(s: string)
    requires SpacedStoredName(s)
    ensures SpacedStoredName(Trim(s))
  {
    var r := Trim(s);
    var k := LeadingSpaces(s);
    forall i | 0 <= i < |r| ensures r[i] == ' ' || IsStoredNameChar(r[i]) {
      assert r[i] == s[k + i];
    }
  }

  /** Turning the whitespace runs into `_` leaves only `[a-z0-9_]`. */
  lemma UnderscoredChars(s: string)
    requires SpacedStoredName(s)
    ensures StoredNameChars(ReplaceRuns(s, IsSpace, '_'))
  {
    var r := ReplaceRuns(s, IsSpace, '_');
    ReplaceRunsChars(s, IsSpace, '_');
    forall i | 0 <= i < |r| ensures IsStoredNameChar(r[i]) {
      var c := r[i];
      if c != '_' {
        assert c in r;
        assert !IsSpace(c) && c in s;
        var j :| 0 <= j < |s| && s[j] == c;
      }
    }
  }

  /**
   * The base-name chain of `upload`: lower-case, each run of non-word
   * characters to one space, the first `_` to a space, trim, and each run of
   * whitespace to `_`. The result holds only `[a-z0-9_]`, and the empty
   * name stays empty.
   */
  function SanitizeBase(joined: string): (base: string)
    ensures StoredNameChars(base)
    ensures joined == [] ==> base == []
  {
    var lower := ToLowerCase(joined);
    var words := ReplaceRuns(lower, IsNonWordChar, ' ');
    CollapsedWordsChars(lower);
    var spaced := ReplaceFirst(words, '_', ' ');
    assert SpacedStoredName(spaced);
    var trimmed := Trim(spaced);
    TrimKeepsSpacedStoredName(spaced);
    UnderscoredChars(trimmed);
    ReplaceRuns(trimmed, IsSpace, '_')
  }

  /** One of `[a-z0-9]`: a character every stage of the base-name chain leaves alone. */
  predicate IsPlainNameChar(c: char) {
    'a' <= c <= 'z' || IsDigit(c)
  }

  /** A non-empty name made only of `[a-z0-9]`. */
  predicate PlainName(s: string) {
    s != [] && forall i :: 0 <= i < |s| ==> IsPlainNameChar(s[i])
  }

  /** Every stage of the chain is the identity on a plain name. */
  lemma PlainNameStages(s: string)
    requires PlainName(s)
    ensures ToLowerCase(s) == s
    ensures ReplaceRuns(s, IsNonWordChar, ' ') == s
    ensures ReplaceRuns(s, IsSpace, '_') == s
    ensures Trim(s) == s
  {
    assert forall i :: 0 <= i < |s| ==> !IsUpper(s[i]) && !IsNonWordChar(s[i]) && !IsSpace(s[i]) by {
      forall i | 0 <= i < |s| ensures !IsUpper(s[i]) && !IsNonWordChar(s[i]) && !IsSpace(s[i]) {
        assert IsPlainNameChar(s[i]);
      }
    }
    LowerCaseFixed(s);
    assert !IsSpace(s[0]) && !IsSpace(s[|s| - 1]);
  }

  /** A name already made of lower-case letters and digits is stored as it is. */
  lemma SanitizeBaseKeepsPlain(s: string)
    requires PlainName(s)
    ensures SanitizeBase(s) == s
  {
    PlainNameStages(s);
    var spaced := ReplaceFirst(s, '_', ' ');
    assert IndexOf(s, '_') == -1;
    assert spaced == s;
  }

  /** Lower-casing a string without upper-case letters changes nothing. */
  lemma LowerCaseFixed(u: string)
    requires forall i :: 0 <= i < |u| ==> !IsUpper(u[i])
    ensures ToLowerCase(u) == u
  {
    var r := ToLowerCase(u);
    assert |r| == |u| && forall i :: 0 <= i < |u| ==> r[i] == u[i];
  }

  /** The first three stages on `_` followed by a plain name: only the `_` changes, to a space. */
  lemma UnderscoredPlainStages(s: string)
    requires PlainName(s)
    ensures ToLowerCase("_" + s) == "_" + s
    ensures ReplaceRuns("_" + s, IsNonWordChar, ' ') == "_" + s
    ensures ReplaceFirst("_" + s, '_', ' ') == " " + s
  {
    var u := "_" + s;
    forall i | 0 <= i < |u| ensures !IsUpper(u[i]) && !IsNonWordChar(u[i]) {
      if i > 0 {
        assert u[i] == s[i - 1] && IsPlainNameChar(s[i - 1]);
      }
    }
    LowerCaseFixed(u);
    assert IndexOf(u, '_') == 0;
    var r := ReplaceFirst(u, '_', ' ');
    assert r == " " + s by {
      forall i | 0 <= i < |r| ensures r[i] == (" " + s)[i] {
        if i > 0 {
          assert u[i] == s[i - 1];
        }
      }
    }
  }

  /** Trimming a space in front of a plain name gives the name. */
  lemma TrimLeadingSpace(s: string)
    requires PlainName(s)
    ensures Trim(" " + s) == s
  {
    var spaced := " " + s;
    assert spaced[1..] == s;
    assert LeadingSpaces(spaced) == 1 by {
      assert LeadingSpaces(s) == 0;
    }
  }

  /**
   * A leading `_` is lost: `.replace('_', ' ')` turns the first `_` into a
   * space, and `trim` then removes it.
   */
  lemma SanitizeBaseDropsLeadingUnderscore(s: string)
    requires PlainName(s)
    ensures SanitizeBase("_" + s) == s
  {
    UnderscoredPlainStages(s);
    TrimLeadingSpace(s);
    PlainNameStages(s);
  }

  /**
   * The name `upload` stores a file under: split on `.`, pop the last piece
   * as the extension, join the rest with `_`, sanitise that, and join the
   * two with `.`.
   */
  function SanitizeName(name: string): string {
    var pieces := Split(name, '.');
    var base := SanitizeBase(Join(pieces[..|pieces| - 1], "_"));
    Join([base, LastPiece(name, '.')], ".")
  }

  lemma JoinPair(a: string, b: string, sep: string)
    ensures Join([a, b], sep) == a + sep + b
  {
    JoinCons(a, [b], sep);
    assert [a] + [b] == [a, b];
  }

  /** The stored name is its base, a `.`, and the extension. */
  lemma SanitizeNameParts(name: string)
    ensures var pieces := Split(name, '.');
      SanitizeName(name) == SanitizeBase(Join(pieces[..|pieces| - 1], "_")) + "." + LastPiece(name, '.')
  {
    var pieces := Split(name, '.');
    JoinPair(SanitizeBase(Join(pieces[..|pieces| - 1], "_")), LastPiece(name, '.'), ".");
  }

  /**
   * The stored name is the sanitised base, a `.`, and the original
   * extension verbatim — the text after the original's last `.` — and
   * everything before that `.` is one of `[a-z0-9_]`.
   */
  lemma SanitizeNameShape(name: string)
    ensures var ext := LastPiece(name, '.');
            var r := SanitizeName(name);
      && |r| > |ext|
      && r[|r| - |ext|..] == ext
      && r[|r| - |ext| - 1] == '.'
      && forall i :: 0 <= i < |r| - |ext| - 1 ==> IsStoredNameChar(r[i])
  {
    SanitizeNameParts(name);
    var pieces := Split(name, '.');
    DottedShape(SanitizeBase(Join(pieces[..|pieces| - 1], "_")), LastPiece(name, '.'));
  }

  lemma DottedShape(base: string, ext: string)
    requires StoredNameChars(base)
    ensures var r := base + "." + ext;
      && |r| > |ext|
      && r[|r| - |ext|..] == ext
      && r[|r| - |ext| - 1] == '.'
      && forall i :: 0 <= i < |r| - |ext| - 1 ==> IsStoredNameChar(r[i])
  {
    var r := base + "." + ext;
    assert r[|r| - |ext|..] == ext;
    forall i | 0 <= i < |r| - |ext| - 1 ensures IsStoredNameChar(r[i]) {
      assert r[i] == base[i];
    }
  }

  /** The stored name's own extension is the original's. */
  lemma SanitizeKeepsExtension(name: string)
    ensures LastPiece(SanitizeName(name), '.') == LastPiece(name, '.')
  {
    SanitizeNameParts(name);
    var pieces := Split(name, '.');
    var base := SanitizeBase(Join(pieces[..|pieces| - 1], "_"));
    assert '.' !in base by {
      forall i | 0 <= i < |base| ensures base[i] != '.' {
        assert IsStoredNameChar(base[i]);
      }
    }
    LastPieceAfterSeparator(base, '.', LastPiece(name, '.'));
  }

  /** The base of a name with a single piece is empty. */
  lemma SinglePieceBase(pieces: seq<string>)
    requires |pieces| == 1
    ensures SanitizeBase(Join(pieces[..|pieces| - 1], "_")) == []
  {
    assert pieces[..|pieces| - 1] == [];
  }

  /** A name without `.` is popped whole as the extension: the stored name is `.` followed by it. */
  lemma SanitizeNameWithoutDot(name: string)
    requires '.' !in name
    ensures SanitizeName(name) == "." + name
  {
    SplitWithoutSeparator(name, '.');
    SinglePieceBase(Split(name, '.'));
    SanitizeNameParts(name);
    assert [] + "." + name == "." + name;
  }

  /** A plain name with a dot-free extension, such as `report.pdf`, is stored unchanged. */
  lemma SanitizeNameKeepsPlain(base: string, ext: string)
    requires PlainName(base) && '.' !in ext
    ensures SanitizeName(base + "." + ext) == base + "." + ext
  {
    var name := base + "." + ext;
    assert '.' !in base by {
      forall i | 0 <= i < |base| ensures base[i] != '.' {
        assert IsPlainNameChar(base[i]);
      }
    }
    SplitAround(base, '.', ext);
    SplitWithoutSeparator(base, '.');
    SplitWithoutSeparator(ext, '.');
    var pieces := Split(name, '.');
    assert pieces == [base, ext];
    assert pieces[..|pieces| - 1] == [base];
    SanitizeBaseKeepsPlain(base);
    LastPieceAfterSeparator(base, '.', ext);
    SanitizeNameParts(name);
  }

  // ---------------------------------------------------------------------------
  // the page's state
  // ---------------------------------------------------------------------------

  /** How the `onchange` handler of `upload` ends. */
  datatype UploadOutcome =
    | Skipped                 // guard or no file list: nothing happened
    | Uploaded                // committed; the new rows were prepended
    | NotAuthorizedAlert      // the error mentioned an unauthorised caller: an alert, swallowed
    | Rethrown(message: string)  // any other error propagates (after the `finally`)

  const NotAuthorized := "Caller is not authorized"

  /** The rows `upload` prepends: the key `store` returned and the sanitised name. */
  function NewRows(keys: seq<string>, files: seq<File>): (rows: seq<Upload>)
    requires |keys| == |files|
    ensures |rows| == |files|
    ensures forall i :: 0 <= i < |rows| ==> rows[i].key == keys[i] && rows[i].filename == SanitizeName(files[i].name)
  {
    seq(|files|, i requires 0 <= i < |files| => Upload(keys[i], SanitizeName(files[i].name)))
  }

  /** One store request per file, in order, each under `path` with the file's sanitised name. */
  function StoreRequests(path: string, files: seq<File>): (requests: seq<StoreRequest>)
    ensures |requests| == |files|
    ensures forall i :: 0 <= i < |requests| ==> requests[i] == StoreRequest(path, SanitizeName(files[i].name))
  {
    seq(|files|, i requires 0 <= i < |files| => StoreRequest(path, SanitizeName(files[i].name)))
  }

  /** The key of a row, as a function value for the removal filter. */
  function RowKey(u: Upload): string {
    u.key
  }

  class Home {
    const env: Env
    var isLogin: bool
    var isUploading: bool
    var authClient: Option<AuthClient>
    var principal: Option<string>
    var progress: Progress
    var uploads: seq<Upload>
    var agent: Option<Agent>

    /** `useMemo`: an asset manager exactly while there is an agent. */
    function AssetManagerOf(): (m: Option<AssetManager>)
      reads this
      ensures m.Some? <==> agent.Some?
      ensures m.Some? ==> m.value.agent == agent.value && m.value.canisterId == CanisterId(env)
    {
      match agent case Some(a) => Some(AssetManager(CanisterId(env), a)) case None => None
    }

    /**
     * Between handlers no upload is in flight and the progress cell is unset,
     * and the agent, if any, is trusted.
     */
    ghost predicate Valid()
      reads this
    {
      && !isUploading
      && progress == Undefined
      && (agent.Some? ==> agent.value == TrustedAgent(env, agent.value.identity))
    }

    constructor (env: Env)
      ensures this.env == env && Valid()
      ensures !isLogin && authClient == None && principal == None && agent == None && uploads == []
    {
      this.env := env;
      isLogin := false;
      isUploading := false;
      authClient := None;
      principal := None;
      progress := Undefined;
      uploads := [];
      agent := None;
    }

    /** This page's `updateClient` always builds an agent, and fetches its root key when local. */
    predicate UpdateCompletes(rootKeyFetch: Completion) {
      !(IsLocal(env) && rootKeyFetch.Failed?)
    }

    ghost predicate UpdatedFrom(client: AuthClient, probe: Probe)
      reads this
    {
      && authClient == Some(client)
      && principal == Some(probe.identity.principal)
      && isLogin == probe.authenticated
      && agent == Some(TrustedAgent(env, probe.identity))
    }

    /**
     * `updateClient(client)`: creates an agent for the client's identity
     * whether or not it is authenticated, fetches its root key first when
     * local, then records client, principal, login flag and agent. A rejected
     * root-key fetch rejects the call before anything is set.
     */
    method UpdateClient(client: AuthClient, probe: Probe, rootKeyFetch: Completion) returns (completed: bool)
      modifies this
      ensures completed <==> UpdateCompletes(rootKeyFetch)
      ensures completed ==> UpdatedFrom(client, probe)
      ensures !completed ==> unchanged(this)
      ensures uploads == old(uploads) && progress == old(progress) && isUploading == old(isUploading)
      ensures old(Valid()) ==> Valid()
    {
      var a := Agent(AgentHost(IsLocal(env), env.port), probe.identity, false);
      if IsLocal(env) {
        if rootKeyFetch.Failed? {
          return false;
        }
        a := a.(rootKeyFetched := true);
      }
      authClient := Some(client);
      principal := Some(probe.identity.principal);
      isLogin := probe.authenticated;
      agent := Some(a);
      completed := true;
    }

    /** `login()`: as the provider's, with this page's `updateClient`. */
    method Login(isSafari: bool, signIn: Option<Probe>, rootKeyFetch: Completion) returns (provider: Option<string>)
      modifies this
      ensures old(authClient).None? ==> provider.None? && unchanged(this)
      ensures old(authClient).Some? ==>
        provider == Some(IdentityProvider(IsLocal(env), isSafari, TemplateText(env.iiCanisterId)))
      ensures old(authClient).Some? && signIn.Some? && UpdateCompletes(rootKeyFetch) ==>
        UpdatedFrom(old(authClient.value), signIn.value)
      ensures old(authClient).Some? && !(signIn.Some? && UpdateCompletes(rootKeyFetch)) ==> unchanged(this)
      ensures uploads == old(uploads) && progress == old(progress) && isUploading == old(isUploading)
      ensures old(Valid()) ==> Valid()
    {
      if authClient.None? {
        return None;
      }
      var client := authClient.value;
      provider := Some(IdentityProvider(IsLocal(env), isSafari, TemplateText(env.iiCanisterId)));
      if signIn.Some? {
        var _ := UpdateClient(client, signIn.value, rootKeyFetch);
      }
    }

    /**
     * `logout()`: with an auth client, awaits `authClient.logout()` and then
     * `updateClient`; then clears the progress cell — also without an auth
     * client, but not when either awaited call rejected.
     */
    method Logout(loggedOut: Completion, afterLogout: Probe, rootKeyFetch: Completion)
      modifies this
      ensures old(authClient).None? ==> progress == Undefined
      ensures old(authClient).None? ==>
        isLogin == old(isLogin) && authClient == old(authClient) && principal == old(principal) && agent == old(agent)
      ensures old(authClient).Some? && loggedOut.Failed? ==> unchanged(this)
      ensures old(authClient).Some? && loggedOut.Completed? && UpdateCompletes(rootKeyFetch) ==>
        UpdatedFrom(old(authClient.value), afterLogout) && progress == Undefined
      ensures old(authClient).Some? && !UpdateCompletes(rootKeyFetch) ==> unchanged(this)
      ensures uploads == old(uploads) && isUploading == old(isUploading)
      ensures old(Valid()) ==> Valid()
    {
      if authClient.Some? {
        if loggedOut.Failed? {
          return;
        }
        var completed := UpdateClient(authClient.value, afterLogout, rootKeyFetch);
        if !completed {
          return;
        }
      }
      progress := Undefined;
    }

    /**
     * The listing effect: nothing unless logged in with an asset manager;
     * then the rows become the listing of the assets `list()` resolved with.
     * A rejected `list()` changes nothing; being logged out does not clear.
     */
    method Refresh(listed: Option<seq<Asset>>)
      modifies this
      ensures isLogin && agent.Some? && listed.Some? ==> uploads == ListUploads(listed.value, principal)
      ensures !(isLogin && agent.Some? && listed.Some?) ==> uploads == old(uploads)
      ensures isLogin == old(isLogin) && isUploading == old(isUploading) && authClient == old(authClient)
      ensures principal == old(principal) && progress == old(progress) && agent == old(agent)
    {
      if AssetManagerOf().None? || !isLogin {
        return;
      }
      if listed.Some? {
        uploads := ListUploads(listed.value, principal);
      }
    }

    /**
     * `upload()` and its `onchange` handler: nothing unless logged in with an
     * asset manager and a file list arrived. Otherwise every file is stored
     * under `/uploads/<principal>` with its sanitised name; when all stores
     * resolve and the commit completes, the new rows go before the old ones.
     * An error mentioning an unauthorised caller becomes an alert; any other
     * propagates. Either way the progress cell is cleared and the upload flag
     * dropped.
     */
    method Upload(chosen: Option<seq<File>>, stored: Settled<seq<string>>, committed: Completion)
      returns (requests: seq<StoreRequest>, outcome: UploadOutcome)
      requires chosen.Some? && stored.Resolved? ==> |stored.value| == |chosen.value|
      modifies this
      ensures var proceeds := old(isLogin) && old(agent).Some? && chosen.Some?;
        && (!proceeds ==> outcome == Skipped && requests == [] && unchanged(this))
        && (proceeds ==>
             && requests == StoreRequests(UploadPath(principal), chosen.value)
             && progress == Undefined && !isUploading
             && (stored.Resolved? && committed.Completed? ==>
                  outcome == Uploaded && uploads == NewRows(stored.value, chosen.value) + old(uploads))
             && (!(stored.Resolved? && committed.Completed?) ==> uploads == old(uploads))
             && (stored.Rejected? ==> outcome == FailureOutcome(stored.message))
             && (stored.Resolved? && committed.Failed? ==> outcome == FailureOutcome(committed.message)))
      ensures isLogin == old(isLogin) && authClient == old(authClient) && principal == old(principal) && agent == old(agent)
      ensures old(Valid()) ==> Valid()
    {
      if !isLogin || AssetManagerOf().None? {
        return [], Skipped;
      }
      if chosen.None? {
        return [], Skipped;
      }
      var files := chosen.value;
      progress := Zero;
      isUploading := true;
      var path := UploadPath(principal);
      requests := StoreRequests(path, files);
      match stored {
        case Rejected(message) =>
          outcome := FailureOutcome(message);
        case Resolved(keys) =>
          match committed {
            case Failed(message) =>
              outcome := FailureOutcome(message);
            case Completed =>
              uploads := NewRows(keys, files) + uploads;
              outcome := Uploaded;
          }
      }
      progress := Undefined;
      isUploading := false;
    }

    /**
     * `remove(key)`: when logged in with an asset manager, asks the store to
     * delete the key (returned as `requested`) and, once that completes,
     * drops the rows with that key. Otherwise, or when the delete fails,
     * the rows stay.
     */
    method Remove(key: string, deleted: Completion) returns (requested: bool)
      modifies this
      ensures requested <==> old(isLogin) && old(agent).Some?
      ensures uploads == if requested && deleted.Completed? then WithoutKey(old(uploads), RowKey, key) else old(uploads)
      ensures isLogin == old(isLogin) && isUploading == old(isUploading) && authClient == old(authClient)
      ensures principal == old(principal) && progress == old(progress) && agent == old(agent)
    {
      requested := isLogin && AssetManagerOf().Some?;
      if requested && deleted.Completed? {
        uploads := WithoutKey(uploads, RowKey, key);
      }
    }
  }

  /** The `catch` of `upload`: an unauthorised caller is alerted and swallowed, anything else rethrown. */
  function FailureOutcome(message: string): (outcome: UploadOutcome)
    ensures outcome == NotAuthorizedAlert <==> Includes(message, NotAuthorized)
    ensures outcome != NotAuthorizedAlert ==> outcome == Rethrown(message)
  {
    if Includes(message, NotAuthorized) then NotAuthorizedAlert else Rethrown(message)
  }
}
