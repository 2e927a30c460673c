/**
 * How `connect_reddit` in reddit_utils.py finds Reddit API credentials. The
 * three sources are consulted in order:
 *   1. the Streamlit secrets entry `praw`; any problem with it (no Streamlit,
 *      no secrets, a missing or empty key) is swallowed and the next source
 *      is tried;
 *   2. a `praw.ini` file in the working directory, the module's directory or
 *      its parent; the first directory holding one decides, and a file that
 *      does not parse, has no section or lacks a key is a fatal error;
 *   3. the environment variables REDDIT_CLIENT_ID, REDDIT_CLIENT_SECRET and
 *      REDDIT_USER_AGENT, used only when all three are non-empty.
 * Otherwise the "No Reddit credentials found" error is raised.
 *
 * The file system, the environment and Streamlit are taken as an abstract
 * snapshot; building the PRAW client is represented by the credentials it
 * would be built from.
 */
module Credentials {
  import opened Wrappers

  /** A key-value table: a secrets entry or an ini section after parsing. */
  type Table = map<string, string>

  /** The three values a PRAW client is built from. */
  datatype Creds = Creds(clientId: string, clientSecret: string, userAgent: string)

  /** What `st.secrets` offers: nothing (no Streamlit, or reading the secrets fails), or its top-level entries. */
  datatype SecretsView = NoSecrets | Secrets(entries: map<string, Table>)

  /** A parsed ini file: the DEFAULT section's keys, then the other sections in file order. */
  datatype IniFile = IniFile(defaults: Table, sections: seq<(string, Table)>)

  /** The `praw.ini` of one candidate directory: absent, present but not parseable, or parsed. */
  datatype IniState = NoIni | Malformed | Parsed(file: IniFile)

  datatype Dir = Dir(path: string, ini: IniState)

  /** Everything `connect_reddit` looks at. */
  datatype Snapshot = Snapshot(secrets: SecretsView, cwd: Dir, fileDir: Dir, parentDir: Dir, env: map<string, string>)

  /** Why no client could be built. */
  datatype ConnectError =
    | IniParseError(path: string)
    | IniNoSections(path: string)
    | IniMissingKey(path: string, section: string, key: string)
    | NoCredentials

  const RequiredKeys: seq<string> := ["client_id", "client_secret", "user_agent"]

  /** The directories searched for `praw.ini`, in order. */
  function Candidates(s: Snapshot): seq<Dir>
  {
    [s.cwd, s.fileDir, s.parentDir]
  }

  /** `k` is there with a non-empty value. */
  predicate Has(t: Table, k: string)
  {
    k in t && t[k] != ""
  }

  /** The first of `keys` that `t` lacks or leaves empty. */
  function FirstMissing(t: Table, keys: seq<string>): (m: Option<string>)
    ensures m == None <==> forall i :: 0 <= i < |keys| ==> Has(t, keys[i])
    ensures m.Some? ==> m.value in keys && !Has(t, m.value)
    ensures m.Some? ==>
      exists i :: 0 <= i < |keys| && keys[i] == m.value && forall j :: 0 <= j < i ==> Has(t, keys[j])
  {
    if keys == [] then None
    else if !Has(t, keys[0]) then Some(keys[0])
    else
      var m := FirstMissing(t, keys[1..]);
      assert m.Some? ==> exists i :: 0 <= i < |keys| && keys[i] == m.value && forall j :: 0 <= j < i ==> Has(t, keys[j]) by {
        if m.Some? {
          var i :| 0 <= i < |keys[1..]| && keys[1..][i] == m.value && forall j :: 0 <= j < i ==> Has(t, keys[1..][j]);
          assert keys[i + 1] == m.value;
          forall j | 0 <= j < i + 1 ensures Has(t, keys[j]) {
            if j > 0 { assert keys[j] == keys[1..][j - 1]; }
          }
        }
      }
      m
  }

  /** The three values, read under the three names given. */
  function CredsOf(t: Table, keys: seq<string>): Creds
    requires |keys| == 3 && FirstMissing(t, keys) == None
  {
    Creds(t[keys[0]], t[keys[1]], t[keys[2]])
  }

  /** The credentials of a complete `praw` secrets entry; None in every other case, errors included. */
  function SecretsCreds(v: SecretsView): Option<Creds>
  {
    if v.Secrets? && "praw" in v.entries && FirstMissing(v.entries["praw"], RequiredKeys) == None
    then Some(CredsOf(v.entries["praw"], RequiredKeys))
    else None
  }

  predicate HasSection(f: IniFile, name: string)
  {
    exists j :: 0 <= j < |f.sections| && f.sections[j].0 == name
  }

  /** The section used: `default` when there is one, else the first section, else none. */
  function SectionChoice(f: IniFile): Option<string>
  {
    if HasSection(f, "default") then Some("default")
    else if f.sections != [] then Some(f.sections[0].0)
    else None
  }

  /** The keys a section offers: its own, and the DEFAULT section's where it has none of that name. */
  function SectionTable(f: IniFile, name: string): (t: Table)
    ensures forall k :: k in t <==> k in f.defaults || k in Lookup(f.sections, name)
    ensures forall k :: k in Lookup(f.sections, name) ==> t[k] == Lookup(f.sections, name)[k]
    ensures forall k :: k in f.defaults && k !in Lookup(f.sections, name) ==> t[k] == f.defaults[k]
  {
    f.defaults + Lookup(f.sections, name)
  }

  /** The table of the first section named `name`; empty when there is none. */
  function Lookup(sections: seq<(string, Table)>, name: string): (t: Table)
    ensures forall i :: 0 <= i < |sections| && sections[i].0 == name && (forall j :: 0 <= j < i ==> sections[j].0 != name)
              ==> t == sections[i].1
    ensures (forall i :: 0 <= i < |sections| ==> sections[i].0 != name) ==> t == map[]
  {
    if sections == [] then map[]
    else if sections[0].0 == name then sections[0].1
    else
      var t := Lookup(sections[1..], name);
      assert forall i :: 1 <= i < |sections| ==> sections[i] == sections[1..][i - 1];
      t
  }

  /** What a directory's `praw.ini` decides, when it has one. */
  function IniOutcome(d: Dir): Option<Result<Creds, ConnectError>>
  {
    match d.ini
    case NoIni => None
    case Malformed => Some(Failure(IniParseError(d.path)))
    case Parsed(f) =>
      match SectionChoice(f)
      case None => Some(Failure(IniNoSections(d.path)))
      case Some(name) =>
        var t := SectionTable(f, name);
        match FirstMissing(t, RequiredKeys)
        case Some(k) => Some(Failure(IniMissingKey(d.path, name, k)))
        case None => Some(Success(CredsOf(t, RequiredKeys)))
  }

  /** The outcome of the first directory that holds a `praw.ini`. */
  function SearchIni(dirs: seq<Dir>): Option<Result<Creds, ConnectError>>
  {
    if dirs == [] then None
    else if dirs[0].ini != NoIni then IniOutcome(dirs[0])
    else SearchIni(dirs[1..])
  }

  const EnvNames: seq<string> := ["REDDIT_CLIENT_ID", "REDDIT_CLIENT_SECRET", "REDDIT_USER_AGENT"]

  /** The environment's credentials, when all three variables are set and non-empty. */
  function EnvCreds(env: map<string, string>): Option<Creds>
  {
    if FirstMissing(env, EnvNames) == None then Some(CredsOf(env, EnvNames)) else None
  }

  /** The precedence of the three sources. */
  function Resolve(s: Snapshot): Result<Creds, ConnectError>
  {
    match SecretsCreds(s.secrets)
    case Some(c) => Success(c)
    case None =>
      match SearchIni(Candidates(s))
      case Some(r) => r
      case None =>
        match EnvCreds(s.env)
        case Some(c) => Success(c)
        case None => Failure(NoCredentials)
  }

  /** The first required key `t` lacks, checked key by key; None when all are there. */
  method CheckKeys(t: Table, keys: seq<string>) returns (missing: Option<string>)
    ensures missing == FirstMissing(t, keys)
  {
    var i := 0;
    while i < |keys|
      invariant 0 <= i <= |keys|
      invariant FirstMissing(t, keys) == FirstMissing(t, keys[i..])
    {
      if !Has(t, keys[i]) {
        return Some(keys[i]);
      }
      assert keys[i..][1..] == keys[i + 1..];
      i := i + 1;
    }
    return None;
  }

  /** `connect_reddit`: the secrets, then each candidate directory in turn, then the environment. */
  method ConnectReddit(s: Snapshot) returns (r: Result<Creds, ConnectError>)
    ensures r == Resolve(s)
  {
    // 1) secrets: every failure falls through
    if s.secrets.Secrets? && "praw" in s.secrets.entries {
      var entry := s.secrets.entries["praw"];
      var missing := CheckKeys(entry, RequiredKeys);
      if missing == None {
        return Success(CredsOf(entry, RequiredKeys));
      }
    }
    // 2) the first praw.ini found decides
    var dirs := Candidates(s);
    var i := 0;
    while i < |dirs|
      invariant 0 <= i <= |dirs|
      invariant SearchIni(dirs) == SearchIni(dirs[i..])
    {
      var d := dirs[i];
      if d.ini != NoIni {
        if d.ini.Malformed? {
          return Failure(IniParseError(d.path));
        }
        var f := d.ini.file;
        var name: string;
        if HasSection(f, "default") {
          name := "default";
        } else if f.sections != [] {
          name := f.sections[0].0;
        } else {
          return Failure(IniNoSections(d.path));
        }
        var t := SectionTable(f, name);
        var missing := CheckKeys(t, RequiredKeys);
        if missing.Some? {
          return Failure(IniMissingKey(d.path, name, missing.value));
        }
        return Success(CredsOf(t, RequiredKeys));
      }
      assert dirs[i..][1..] == dirs[i + 1..];
      i := i + 1;
    }
    // 3) the environment, all or nothing
    var missing := CheckKeys(s.env, EnvNames);
    if missing == None {
      return Success(CredsOf(s.env, EnvNames));
    }
    return Failure(NoCredentials);
  }

  // ---------------------------------------------------------------------------
  // Precedence properties
  // ---------------------------------------------------------------------------

  /** A complete secrets entry wins, whatever the ini files and the environment hold. */
  lemma SecretsFirst(s: Snapshot, t: Snapshot)
    requires s.secrets == t.secrets
    requires SecretsCreds(s.secrets).Some?
    ensures Resolve(s) == Resolve(t) == Success(SecretsCreds(s.secrets).value)
  {
  }

  /** A missing or incomplete secrets entry is not an error: the outcome is what it would be without Streamlit. */
  lemma IncompleteSecretsFallThrough(s: Snapshot, k: string)
    requires s.secrets.Secrets? && "praw" in s.secrets.entries
    requires k in RequiredKeys && !Has(s.secrets.entries["praw"], k)
    ensures Resolve(s) == Resolve(s.(secrets := NoSecrets))
  {
    assert FirstMissing(s.secrets.entries["praw"], RequiredKeys) != None;
  }

  /**
   * Without secrets credentials, the first directory holding a `praw.ini`
   * decides: neither later directories nor the environment matter.
   */
  lemma {:induction false} FirstIniDecides(s: Snapshot, i: nat)
    requires SecretsCreds(s.secrets) == None
    requires i < 3 && Candidates(s)[i].ini != NoIni
    requires forall j :: 0 <= j < i ==> Candidates(s)[j].ini == NoIni
    ensures Resolve(s) == IniOutcome(Candidates(s)[i]).value
  {
    var dirs := Candidates(s);
    SearchIniAt(dirs, i);
  }

  /** The ini search over the three candidate directories, written out. */
  lemma SearchCandidates(s: Snapshot)
    ensures SearchIni(Candidates(s)) ==
      if s.cwd.ini != NoIni then IniOutcome(s.cwd)
      else if s.fileDir.ini != NoIni then IniOutcome(s.fileDir)
      else if s.parentDir.ini != NoIni then IniOutcome(s.parentDir)
      else None
  {
    var dirs := Candidates(s);
    if s.cwd.ini != NoIni {
      SearchIniAt(dirs, 0);
    } else if s.fileDir.ini != NoIni {
      SearchIniAt(dirs, 1);
    } else if s.parentDir.ini != NoIni {
      SearchIniAt(dirs, 2);
    } else {
      assert dirs[1..][1..][1..] == [];
      assert SearchIni(dirs[1..][1..]) == None;
    }
  }

  lemma {:induction false} SearchIniAt(dirs: seq<Dir>, i: nat)
    requires i < |dirs| && dirs[i].ini != NoIni
    requires forall j :: 0 <= j < i ==> dirs[j].ini == NoIni
    ensures SearchIni(dirs) == IniOutcome(dirs[i])
  {
    if i > 0 {
      SearchIniAt(dirs[1..], i - 1);
    }
  }

  /** An ini file that exists always yields an outcome: a broken one is an error, with no fallback. */
  lemma IniOutcomeDefined(d: Dir)
    requires d.ini != NoIni
    ensures IniOutcome(d).Some?
    ensures d.ini.Malformed? ==> IniOutcome(d) == Some(Failure(IniParseError(d.path)))
    ensures d.ini.Parsed? && d.ini.file.sections == [] ==> IniOutcome(d) == Some(Failure(IniNoSections(d.path)))
  {
    if d.ini.Parsed? && d.ini.file.sections == [] {
      assert !HasSection(d.ini.file, "default");
    }
  }

  /**
   * An ini error is fatal: when the deciding `praw.ini` is broken, connecting
   * fails even if the environment holds complete credentials.
   */
  lemma IniErrorIsFatal(s: Snapshot, env: map<string, string>)
    requires SecretsCreds(s.secrets) == None
    requires SearchIni(Candidates(s)).Some? && SearchIni(Candidates(s)).value.Failure?
    ensures Resolve(s).Failure? && Resolve(s.(env := env)) == Resolve(s)
  {
  }

  /** The section used is `default` when the file has one, else the first; its keys fall back on DEFAULT. */
  lemma SectionChoiceSpec(f: IniFile)
    ensures SectionChoice(f) == Some("default") <==> HasSection(f, "default")
    ensures SectionChoice(f) == None <==> f.sections == []
    ensures SectionChoice(f).Some? ==> HasSection(f, SectionChoice(f).value)
    ensures !HasSection(f, "default") && f.sections != [] ==> SectionChoice(f) == Some(f.sections[0].0)
  {
    if f.sections != [] {
      assert f.sections[0].0 == f.sections[0].0;
      assert HasSection(f, f.sections[0].0) by { assert f.sections[0] == f.sections[0]; }
    }
  }

  /**
   * In the chosen section (DEFAULT keys included), a required key that is
   * missing or empty, with every earlier required key present, is the one the
   * error names.
   */
  lemma IniMissingKeyFirst(d: Dir, name: string, i: nat)
    requires d.ini.Parsed? && SectionChoice(d.ini.file) == Some(name)
    requires i < |RequiredKeys| && !Has(SectionTable(d.ini.file, name), RequiredKeys[i])
    requires forall j :: 0 <= j < i ==> Has(SectionTable(d.ini.file, name), RequiredKeys[j])
    ensures IniOutcome(d) == Some(Failure(IniMissingKey(d.path, name, RequiredKeys[i])))
  {
    var t := SectionTable(d.ini.file, name);
    var m := FirstMissing(t, RequiredKeys);
    assert m.Some?;
    var p :| 0 <= p < |RequiredKeys| && RequiredKeys[p] == m.value && forall j :: 0 <= j < p ==> Has(t, RequiredKeys[j]);
    assert !Has(t, RequiredKeys[p]);
  }

  /** A chosen section holding all three keys, directly or through DEFAULT, gives a client built from their values. */
  lemma IniCompleteSection(d: Dir, name: string)
    requires d.ini.Parsed? && SectionChoice(d.ini.file) == Some(name)
    requires var t := SectionTable(d.ini.file, name);
      Has(t, "client_id") && Has(t, "client_secret") && Has(t, "user_agent")
    ensures var t := SectionTable(d.ini.file, name);
      IniOutcome(d) == Some(Success(Creds(t["client_id"], t["client_secret"], t["user_agent"])))
  {
    var t := SectionTable(d.ini.file, name);
    assert forall i :: 0 <= i < |RequiredKeys| ==> Has(t, RequiredKeys[i]);
  }

  /** With no secrets and no ini file, the environment is used exactly when all three variables are non-empty. */
  lemma EnvironmentLast(s: Snapshot)
    requires SecretsCreds(s.secrets) == None
    requires s.cwd.ini == NoIni && s.fileDir.ini == NoIni && s.parentDir.ini == NoIni
    ensures Resolve(s).Success? <==> Has(s.env, "REDDIT_CLIENT_ID") && Has(s.env, "REDDIT_CLIENT_SECRET") && Has(s.env, "REDDIT_USER_AGENT")
    ensures Resolve(s).Failure? ==> Resolve(s).error == NoCredentials
    ensures Resolve(s).Success? ==> Resolve(s).value == Creds(s.env["REDDIT_CLIENT_ID"], s.env["REDDIT_CLIENT_SECRET"], s.env["REDDIT_USER_AGENT"])
  {
    SearchCandidates(s);
    assert EnvNames[0] == "REDDIT_CLIENT_ID" && EnvNames[1] == "REDDIT_CLIENT_SECRET" && EnvNames[2] == "REDDIT_USER_AGENT";
  }

  /** Every successful outcome carries three non-empty values. */
  lemma SuccessNonEmpty(s: Snapshot)
    requires Resolve(s).Success?
    ensures Resolve(s).value.clientId != "" && Resolve(s).value.clientSecret != "" && Resolve(s).value.userAgent != ""
  {
    SearchCandidates(s);
  }
}
