/**
 * The terminal panel's session list: where a new shell starts, which
 * session is shown after one is opened or closed, and the one automatic
 * session when the panel first opens. The terminals themselves live in the
 * host; creating or closing one there is a `host` parameter that succeeds or
 * fails, and a new session's identifier (a random UUID) is a parameter.
 */
module TerminalPanel {
  import opened Common
  import opened Strings
  import opened FileTree

  /** One tab of the panel. */
  datatype Session = Session(id: string, title: string)

  /** The identifiers of the sessions, in order. */
  function Ids(sessions: seq<Session>): (r: seq<string>)
    ensures |r| == |sessions| && forall i :: 0 <= i < |r| ==> r[i] == sessions[i].id
  {
    if sessions == [] then [] else [sessions[0].id] + Ids(sessions[1..])
  }

  /** `prev.filter(s => s.id !== id)`. */
  function Without(sessions: seq<Session>, id: string): (r: seq<Session>)
    ensures |r| <= |sessions|
  {
    if sessions == [] then []
    else if sessions[0].id == id then Without(sessions[1..], id)
    else [sessions[0]] + Without(sessions[1..], id)
  }

  /** The filter keeps exactly the sessions with another identifier, in their order. */
  lemma {:induction false} WithoutKeeps(sessions: seq<Session>, id: string)
    ensures forall s :: s in Without(sessions, id) <==> s in sessions && s.id != id
  {
    if sessions != [] {
      WithoutKeeps(sessions[1..], id);
      assert sessions == [sessions[0]] + sessions[1..];
    }
  }

  /**
   * `resolveCwd`: the folder of the selected note, or the folder on view when
   * no note is selected, a folder is selected, or the note's path has no `/`
   * after its first character.
   */
  function ResolveCwd(currentPath: string, selected: Option<FileNode>): (cwd: string)
    ensures cwd != currentPath ==>
      selected.Some? && !selected.value.isDir && 0 < |cwd| < |selected.value.path|
      && StartsWith(selected.value.path, cwd) && selected.value.path[|cwd|] == '/'
  {
    if selected.None? || selected.value.isDir then currentPath
    else
      var filePath := selected.value.path;
      var lastSlash := LastIndexOf(filePath, '/');
      if lastSlash <= 0 then currentPath
      else filePath[..lastSlash]
  }

  /** A selected note starts the shell in its own folder. */
  lemma CwdOfNote(currentPath: string, dir: string, note: FileNode)
    requires !note.isDir && dir != "" && note.path == dir + "/" + note.name && '/' !in note.name
    ensures ResolveCwd(currentPath, Some(note)) == dir
  {
    var p := note.path;
    assert p[|dir|] == '/';
    assert LastIndexOf(p, '/') == |dir| by {
      forall i | |dir| < i < |p| ensures p[i] != '/' {
        assert p[i] == note.name[i - |dir| - 1];
      }
    }
    assert p[..|dir|] == dir;
  }

  /** The shell starts in the folder on view or in a proper prefix of the note's path that ends just before a `/`. */
  lemma CwdBounds(currentPath: string, selected: Option<FileNode>)
    ensures var cwd := ResolveCwd(currentPath, selected);
      cwd == currentPath
      || (selected.Some? && 0 < |cwd| < |selected.value.path| && StartsWith(selected.value.path, cwd)
          && selected.value.path[|cwd|] == '/')
  {
  }

  /** The title of the `n`-th session opened: `Local (n)`. */
  function Title(n: nat): (t: string)
    ensures StartsWith(t, "Local (") && EndsWith(t, ")")
  {
    var t := "Local (" + NatToString(n) + ")";
    assert t[..7] == "Local (";
    t
  }

  class Panel {
    var sessions: seq<Session>
    var activeSessionId: Option<string>
    var hasAutoCreatedSession: bool

    /** The session on view, if any, is one of the tabs. */
    predicate Valid()
      reads this
    {
      activeSessionId.Some? ==> activeSessionId.value in Ids(sessions)
    }

    /** A closed panel with no sessions. */
    constructor ()
      ensures sessions == [] && activeSessionId == None && !hasAutoCreatedSession
      ensures Valid()
    {
      sessions := [];
      activeSessionId := None;
      hasAutoCreatedSession := false;
    }

    /**
     * `createSession`: once the host has started the shell, a tab titled
     * after the number of tabs is added and shown; when the host fails,
     * nothing changes.
     */
    method CreateSession(id: string, host: Result<()>)
      requires Valid()
      modifies this
      ensures Valid()
      ensures hasAutoCreatedSession == old(hasAutoCreatedSession)
      ensures host.Ok? ==> sessions == old(sessions) + [Session(id, Title(|old(sessions)| + 1))]
                           && activeSessionId == Some(id)
      ensures host.Err? ==> sessions == old(sessions) && activeSessionId == old(activeSessionId)
    {
      if host.Ok? {
        sessions := sessions + [Session(id, Title(|sessions| + 1))];
        activeSessionId := Some(id);
        assert Ids(sessions)[|sessions| - 1] == id;
      }
    }

    /** The first session is opened automatically, once, when the panel is open and has no tabs. */
    method AutoCreate(isOpen: bool, id: string, host: Result<()>)
      requires Valid()
      modifies this
      ensures Valid()
      ensures hasAutoCreatedSession == (old(hasAutoCreatedSession) || (isOpen && old(sessions) == []))
      ensures old(hasAutoCreatedSession) || !isOpen || old(sessions) != [] ==>
        sessions == old(sessions) && activeSessionId == old(activeSessionId)
      ensures !old(hasAutoCreatedSession) && isOpen && old(sessions) == [] && host.Ok? ==>
        sessions == [Session(id, Title(1))] && activeSessionId == Some(id)
      ensures !old(hasAutoCreatedSession) && isOpen && old(sessions) == [] && host.Err? ==>
        sessions == [] && activeSessionId == old(activeSessionId)
    {
      if hasAutoCreatedSession || !isOpen || |sessions| != 0 {
        return;
      }
      hasAutoCreatedSession := true;
      CreateSession(id, host);
    }

    /**
     * `closeSession`: once the host has closed the shell, the tab goes;
     * when it was the one on view, the last remaining tab (or none) is
     * shown, otherwise the view stays. When the host fails nothing changes.
     */
    method CloseSession(id: string, host: Result<()>)
      requires Valid()
      modifies this
      ensures Valid()
      ensures hasAutoCreatedSession == old(hasAutoCreatedSession)
      ensures host.Err? ==> sessions == old(sessions) && activeSessionId == old(activeSessionId)
      ensures host.Ok? ==> sessions == Without(old(sessions), id)
      ensures host.Ok? && old(activeSessionId) == Some(id) ==>
        activeSessionId == (if sessions == [] then None else Some(sessions[|sessions| - 1].id))
      ensures host.Ok? && old(activeSessionId) != Some(id) ==> activeSessionId == old(activeSessionId)
    {
      if host.Err? {
        return;
      }
      var remaining := Without(sessions, id);
      WithoutKeeps(sessions, id);
      if activeSessionId == Some(id) {
        if |remaining| > 0 {
          activeSessionId := Some(remaining[|remaining| - 1].id);
        } else {
          activeSessionId := None;
        }
      } else if activeSessionId.Some? {
        var k :| 0 <= k < |sessions| && sessions[k].id == activeSessionId.value;
        assert sessions[k] in remaining;
        InIds(remaining, sessions[k]);
      }
      sessions := remaining;
      if activeSessionId.Some? && |remaining| > 0 && activeSessionId.value == remaining[|remaining| - 1].id {
        assert Ids(remaining)[|remaining| - 1] == activeSessionId.value;
      }
    }

    /** The host's close-active-session event closes the tab on view, if there is one. */
    method CloseActive(host: Result<()>)
      requires Valid()
      modifies this
      ensures Valid()
      ensures hasAutoCreatedSession == old(hasAutoCreatedSession)
      ensures old(activeSessionId).None? || host.Err? ==>
        sessions == old(sessions) && activeSessionId == old(activeSessionId)
      ensures old(activeSessionId).Some? && host.Ok? ==>
        sessions == Without(old(sessions), old(activeSessionId).value)
        && old(activeSessionId).value !in Ids(sessions)
        && activeSessionId == (if sessions == [] then None else Some(sessions[|sessions| - 1].id))
    {
      if activeSessionId.None? {
        return;
      }
      var id := activeSessionId.value;
      CloseSession(id, host);
      if host.Ok? {
        WithoutDrops(old(sessions), id);
      }
    }
  }

  /** After the filter no tab carries the identifier. */
  lemma {:induction false} WithoutDrops(sessions: seq<Session>, id: string)
    ensures id !in Ids(Without(sessions, id))
  {
    if sessions != [] {
      WithoutDrops(sessions[1..], id);
      if sessions[0].id != id {
        assert Ids(Without(sessions, id)) == [sessions[0].id] + Ids(Without(sessions[1..], id));
      }
    }
  }

  /**
   * Titles count the tabs open, not the tabs ever opened: closing the first
   * of two tabs and opening another leaves two tabs with the same title.
   */
  lemma TitlesRepeat(a: string, b: string, c: string)
    requires a != b
    ensures var after := Without([Session(a, Title(1)), Session(b, Title(2))], a);
      var next := after + [Session(c, Title(|after| + 1))];
      |next| == 2 && next[0].title == next[1].title
  {
    var two := [Session(a, Title(1)), Session(b, Title(2))];
    assert two[1..] == [Session(b, Title(2))];
    assert Without(two[1..][1..], a) == [];
  }

  /** A session listed is found among the identifiers. */
  lemma InIds(sessions: seq<Session>, s: Session)
    requires s in sessions
    ensures s.id in Ids(sessions)
  {
    var k :| 0 <= k < |sessions| && sessions[k] == s;
    assert Ids(sessions)[k] == s.id;
  }
}
