/** The "Open Recent File" and "Recall/Import Recent Session" menus of a
    window: a fixed number of menu actions refreshed from the application's
    lists of recent files and sessions. */
module RecentMenus {
  import opened Decimal

  const MaxRecentFiles: nat := 4
  const MaxRecentSessions: nat := 3

  /** A QAction of a recent menu: its label, the path it carries, and
      whether it is shown. */
  datatype MenuAction = MenuAction(text: string, data: string, visible: bool)

  /** A recent file: its path and the name displayed for it. */
  datatype RecentFile = RecentFile(path: string, name: string)

  function Min(a: nat, b: nat): nat {
    if a <= b then a else b
  }

  function FileEntry(f: RecentFile): MenuAction {
    MenuAction(f.name, f.path, true)
  }

  /** update_RecentFileMenu: the first recent files (at most 4), in order,
      fill the first actions; the remaining actions keep what they showed. */
  method UpdateRecentFileMenu(actions: seq<MenuAction>, recents: seq<RecentFile>)
      returns (updated: seq<MenuAction>)
    requires |actions| == MaxRecentFiles
    ensures |updated| == MaxRecentFiles
    ensures forall j :: 0 <= j < MaxRecentFiles && j < |recents| ==>
              updated[j] == MenuAction(recents[j].name, recents[j].path, true)
    ensures forall j :: |recents| <= j < MaxRecentFiles ==> updated[j] == actions[j]
  {
    updated := actions;
    var j := 0;
    for i := 0 to |recents|
      invariant j == Min(i, MaxRecentFiles)
      invariant |updated| == MaxRecentFiles
      invariant forall k :: 0 <= k < j ==> updated[k] == FileEntry(recents[k])
      invariant forall k :: j <= k < MaxRecentFiles ==> updated[k] == actions[k]
    {
      if j < MaxRecentFiles {
        updated := updated[j := FileEntry(recents[i])];
        j := j + 1;
      }
    }
  }

  /** open_Recent_File: a shown action opens the file it was filled with. */
  lemma OpenRecentFileOpensListed(actions: seq<MenuAction>, recents: seq<RecentFile>,
                                  updated: seq<MenuAction>, j: nat)
    requires |actions| == MaxRecentFiles && |updated| == MaxRecentFiles
    requires forall k :: 0 <= k < MaxRecentFiles && k < |recents| ==> updated[k] == FileEntry(recents[k])
    requires forall k :: |recents| <= k < MaxRecentFiles ==> updated[k] == actions[k]
    requires forall k :: 0 <= k < MaxRecentFiles ==> !actions[k].visible
    requires j < MaxRecentFiles && updated[j].visible
    ensures j < |recents| && updated[j].data == recents[j].path
  {
  }

  /** The paths of `paths` that exist, in their original order. */
  function ExistingOnly(paths: seq<string>, onDisk: set<string>): (kept: seq<string>)
    ensures |kept| <= |paths|
    ensures forall p :: p in kept <==> p in paths && p in onDisk
  {
    if |paths| == 0 then []
    else
      var rest := ExistingOnly(paths[..|paths| - 1], onDisk);
      var last := paths[|paths| - 1];
      assert paths == paths[..|paths| - 1] + [last];
      if last in onDisk then rest + [last] else rest
  }

  /** `a` is `b` with some elements removed, the others in order. */
  predicate IsSubsequence(a: seq<string>, b: seq<string>)
    decreases |b|
  {
    if |a| == 0 then true
    else if |b| == 0 then false
    else if a[|a| - 1] == b[|b| - 1] then IsSubsequence(a[..|a| - 1], b[..|b| - 1])
    else IsSubsequence(a, b[..|b| - 1])
  }

  /** Removing missing sessions keeps every occurrence of a session whose
      file exists, and none of the others. */
  lemma {:induction false} ExistingOnlyCounts(paths: seq<string>, onDisk: set<string>, p: string)
    ensures multiset(ExistingOnly(paths, onDisk))[p] == if p in onDisk then multiset(paths)[p] else 0
    decreases |paths|
  {
    if |paths| > 0 {
      var init := paths[..|paths| - 1];
      var last := paths[|paths| - 1];
      assert paths == init + [last];
      ExistingOnlyCounts(init, onDisk, p);
    }
  }

  /** Removing missing sessions keeps the others in their order. */
  lemma {:induction false} ExistingOnlyKeepsOrder(paths: seq<string>, onDisk: set<string>)
    ensures IsSubsequence(ExistingOnly(paths, onDisk), paths)
    decreases |paths|
  {
    if |paths| > 0 {
      var init := paths[..|paths| - 1];
      var last := paths[|paths| - 1];
      ExistingOnlyKeepsOrder(init, onDisk);
      var kept := ExistingOnly(paths, onDisk);
      if last in onDisk {
        assert kept[..|kept| - 1] == ExistingOnly(init, onDisk);
      } else if |kept| > 0 {
        assert kept[|kept| - 1] in onDisk;
      }
    }
  }

  /** When every session exists, none is removed. */
  lemma {:induction false} ExistingOnlyAllExist(paths: seq<string>, onDisk: set<string>)
    requires forall i :: 0 <= i < |paths| ==> paths[i] in onDisk
    ensures ExistingOnly(paths, onDisk) == paths
    decreases |paths|
  {
    if |paths| > 0 {
      ExistingOnlyAllExist(paths[..|paths| - 1], onDisk);
      assert paths == paths[..|paths| - 1] + [paths[|paths| - 1]];
    }
  }

  /** A second pass removes nothing. */
  lemma ExistingOnlyIdempotent(paths: seq<string>, onDisk: set<string>)
    ensures ExistingOnly(ExistingOnly(paths, onDisk), onDisk) == ExistingOnly(paths, onDisk)
  {
    var kept := ExistingOnly(paths, onDisk);
    assert forall i :: 0 <= i < |kept| ==> kept[i] in onDisk;
    ExistingOnlyAllExist(kept, onDisk);
  }

  /** QFileInfo::fileName: the part of a path after its last '/'. */
  function FileName(path: string): (name: string)
    ensures '/' !in name
    ensures |name| <= |path|
    // the name ends the path, right after a '/' when it is not all of it
    ensures name == path[|path| - |name|..]
    ensures |name| < |path| ==> path[|path| - |name| - 1] == '/'
  {
    if |path| == 0 then ""
    else if path[|path| - 1] == '/' then ""
    else FileName(path[..|path| - 1]) + [path[|path| - 1]]
  }

  /** The part of a file name before its first '.'. */
  function BeforeDot(name: string): (base: string)
    ensures '.' !in base
    ensures |base| <= |name|
    ensures base == name[..|base|]
    ensures |base| < |name| ==> name[|base|] == '.'
  {
    if |name| == 0 || name[0] == '.' then "" else [name[0]] + BeforeDot(name[1..])
  }

  /** QFileInfo::baseName: the file name up to its first '.'. */
  function BaseName(path: string): (base: string)
    ensures '/' !in base && '.' !in base
    ensures |base| <= |FileName(path)| && base == FileName(path)[..|base|]
    ensures |base| < |FileName(path)| ==> FileName(path)[|base|] == '.'
  {
    BeforeDot(FileName(path))
  }

  /** The label of session slot j: "&<j+1> <base name>", the digit being
      the action's keyboard mnemonic. */
  function SessionLabel(j: nat, path: string): (text: string)
    requires j < MaxRecentSessions
    ensures |text| >= 3 && text[0] == '&' && text[2] == ' '
    ensures IsDigit(text[1]) && DigitValue(text[1]) == j + 1
    ensures text[3..] == BaseName(path)
  {
    "&" + NatToString(j + 1) + " " + BaseName(path)
  }

  /** The first half of update_RecentSessionMenu: the sessions whose file
      no longer exists are removed from the list. */
  method RemoveMissingSessions(sessions: seq<string>, onDisk: set<string>) returns (kept: seq<string>)
    ensures forall p :: p in kept <==> p in sessions && p in onDisk
    ensures kept == ExistingOnly(sessions, onDisk)
  {
    kept := [];
    for i := 0 to |sessions|
      invariant kept == ExistingOnly(sessions[..i], onDisk)
    {
      var prefix := sessions[..i + 1];
      assert prefix[..|prefix| - 1] == sessions[..i];
      assert prefix[|prefix| - 1] == sessions[i];
      if sessions[i] in onDisk {
        kept := kept + [sessions[i]];
      }
    }
    assert sessions[..|sessions|] == sessions;
  }

  /** The second half: the first three sessions fill the slots of both
      the recall and the import menus; the other slots are hidden, keeping
      their label and path. */
  method FillSessionMenus(kept: seq<string>, recall: seq<MenuAction>, importing: seq<MenuAction>)
      returns (recall': seq<MenuAction>, importing': seq<MenuAction>)
    requires |recall| == MaxRecentSessions && |importing| == MaxRecentSessions
    ensures |recall'| == MaxRecentSessions && |importing'| == MaxRecentSessions
    ensures forall j :: 0 <= j < MaxRecentSessions && j < |kept| ==>
              recall'[j] == importing'[j] == MenuAction(SessionLabel(j, kept[j]), kept[j], true)
    ensures forall j :: |kept| <= j < MaxRecentSessions ==>
              recall'[j] == recall[j].(visible := false) && importing'[j] == importing[j].(visible := false)
  {
    recall', importing' := recall, importing;
    for j := 0 to MaxRecentSessions
      invariant |recall'| == MaxRecentSessions && |importing'| == MaxRecentSessions
      invariant forall k :: 0 <= k < j && k < |kept| ==>
                  recall'[k] == importing'[k] == MenuAction(SessionLabel(k, kept[k]), kept[k], true)
      invariant forall k :: 0 <= k < j && |kept| <= k ==>
                  recall'[k] == recall[k].(visible := false) && importing'[k] == importing[k].(visible := false)
      invariant forall k :: j <= k < MaxRecentSessions ==> recall'[k] == recall[k] && importing'[k] == importing[k]
    {
      if j < |kept| {
        var entry := MenuAction(SessionLabel(j, kept[j]), kept[j], true);
        recall' := recall'[j := entry];
        importing' := importing'[j := entry];
      } else {
        recall' := recall'[j := recall'[j].(visible := false)];
        importing' := importing'[j := importing'[j].(visible := false)];
      }
    }
  }

  /** update_RecentSessionMenu: sessions whose file no longer exists are
      removed from the list; the first three remaining sessions fill the
      slots of both the recall and the import menus; the other slots are
      hidden, keeping their label and path. */
  method UpdateRecentSessionMenu(sessions: seq<string>, onDisk: set<string>,
                                 recall: seq<MenuAction>, importing: seq<MenuAction>)
      returns (kept: seq<string>, recall': seq<MenuAction>, importing': seq<MenuAction>)
    requires |recall| == MaxRecentSessions && |importing| == MaxRecentSessions
    ensures forall p :: p in kept <==> p in sessions && p in onDisk
    ensures IsSubsequence(kept, sessions)
    ensures kept == ExistingOnly(sessions, onDisk)
    ensures |recall'| == MaxRecentSessions && |importing'| == MaxRecentSessions
    ensures forall j :: 0 <= j < MaxRecentSessions && j < |kept| ==>
              recall'[j] == importing'[j] == MenuAction(SessionLabel(j, kept[j]), kept[j], true)
    ensures forall j :: |kept| <= j < MaxRecentSessions ==>
              recall'[j] == recall[j].(visible := false) && importing'[j] == importing[j].(visible := false)
  {
    kept := RemoveMissingSessions(sessions, onDisk);
    ExistingOnlyKeepsOrder(sessions, onDisk);
    recall', importing' := FillSessionMenus(kept, recall, importing);
  }
}
