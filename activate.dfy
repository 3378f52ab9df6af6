/**
 * What activating a result does: remove it from the history, start a sync,
 * open its web page or copy its URL — then remember the choice in the
 * history. Processes, the history and the sync are outside the model; the
 * method returns the effects it sets off, in order.
 */
module Activate {
  import opened Text
  import opened Store
  import opened Query

  const ActionOpen: string := "open"
  const ActionCopyURL: string := "copy_url"
  const ActionRefresh: string := "refresh"

  /** A side effect set off by an activation. */
  datatype Effect =
    | HistoryRemoved(identifier: string)
    | SyncStarted
    | ProcessStarted(argv: seq<string>)
    | HistorySaved(query: string, identifier: string)

  /** The web URL an identifier names: a project or merge-request lookup by the id after the prefix, else "". */
  function ResolveURL(store: Store, identifier: string, readFails: bool): (url: string)
    reads store
    ensures !HasPrefix(identifier, ProjectPrefix) && !HasPrefix(identifier, MergeRequestPrefix) ==> url == ""
    ensures url != "" ==>
              || (HasPrefix(identifier, ProjectPrefix)
                  && ParseDecimal(identifier[|ProjectPrefix|..]).Some?
                  && ParseDecimal(identifier[|ProjectPrefix|..]).value in store.projects
                  && url == store.projects[ParseDecimal(identifier[|ProjectPrefix|..]).value].webURL)
              || (HasPrefix(identifier, MergeRequestPrefix)
                  && ParseDecimal(identifier[|MergeRequestPrefix|..]).Some?
                  && ParseDecimal(identifier[|MergeRequestPrefix|..]).value in store.mergeRequests
                  && url == store.mergeRequests[ParseDecimal(identifier[|MergeRequestPrefix|..]).value].webURL)
  {
    if HasPrefix(identifier, ProjectPrefix) then
      store.ProjectWebURL(identifier[|ProjectPrefix|..], readFails)
    else if HasPrefix(identifier, MergeRequestPrefix) then
      store.MergeRequestWebURL(identifier[|MergeRequestPrefix|..], readFails)
    else ""
  }

  /** The identifier of a project entry resolves to the project's web URL. */
  lemma ResolveProjectIdentifier(store: Store, id: int)
    requires id in store.projects
    ensures ResolveURL(store, ProjectIdentifier(id), false) == store.projects[id].webURL
  {
    var ident := ProjectIdentifier(id);
    assert ident[..|ProjectPrefix|] == ProjectPrefix;
    assert ident[|ProjectPrefix|..] == Decimal(id);
    ProjectWebURLRoundTrip(store, id);
  }

  /** The identifier of a merge-request entry resolves to the merge request's web URL. */
  lemma ResolveMergeRequestIdentifier(store: Store, id: int)
    requires id in store.mergeRequests
    ensures ResolveURL(store, MergeRequestIdentifier(id), false) == store.mergeRequests[id].webURL
  {
    var ident := MergeRequestIdentifier(id);
    assert ident[..|MergeRequestPrefix|] == MergeRequestPrefix;
    assert !HasPrefix(ident, ProjectPrefix) by {
      assert ident[1] == 'r' && ProjectPrefix[1] == 'r';
      assert ident[0] == 'm' && ProjectPrefix[0] == 'p';
    }
    assert ident[|MergeRequestPrefix|..] == Decimal(id);
    MergeRequestWebURLRoundTrip(store, id);
  }

  /** The shell command that opens `url`: launch prefix, opener and single-quoted URL, trimmed. */
  function OpenCommand(launchPrefix: string, command: string, url: string): string {
    TrimSpace(launchPrefix + " " + command + " '" + url + "'")
  }

  /** Trimming white space around `p + t` keeps all of `t` when `t` starts and ends with non-space. */
  lemma TrimSpaceKeepsTail(p: string, t: string)
    requires |t| > 0 && !IsSpace(t[0]) && !IsSpace(t[|t| - 1])
    ensures var c := TrimSpace(p + t);
            |t| <= |c| && c[|c| - |t|..] == t
  {
    var s := p + t;
    var l := TrimLeft(s);
    assert s[|p|] == t[0];
    assert |s| - |l| <= |p|;
    assert l[|l| - |t|..] == t by {
      assert l == s[|s| - |l|..];
      assert s[|p|..] == t;
    }
    var r := TrimRight(l);
    assert l[|l| - 1] == t[|t| - 1];
    assert |r| == |l|;
    assert r == l;
    assert TrimSpace(s) == r;
  }

  /** The opened command always ends with the URL in single quotes, whatever the prefix and opener. */
  lemma OpenCommandQuotesURL(launchPrefix: string, command: string, url: string)
    ensures var c := OpenCommand(launchPrefix, command, url);
            var quoted := "'" + url + "'";
            |quoted| <= |c| && c[|c| - |quoted|..] == quoted
  {
    var quoted := "'" + url + "'";
    assert launchPrefix + " " + command + " '" + url + "'" == (launchPrefix + " " + command + " ") + quoted;
    assert quoted[0] == '\'' && quoted[|quoted| - 1] == '\'';
    TrimSpaceKeepsTail(launchPrefix + " " + command + " ", quoted);
  }

  /** An empty action means open. */
  function ActionOf(action: string): string {
    if action == "" then ActionOpen else action
  }

  /**
   * The effects of activating `identifier` by `act` when it resolves to `url`
   * ("" when it does not): the history's delete action, a refresh, an open
   * or a copy of a resolved URL followed by the history save, or nothing.
   */
  function Effects(act: string, deleteAction: string, url: string, history: bool,
                   launchPrefix: string, command: string, identifier: string, query: string): seq<Effect>
  {
    if act == deleteAction then [HistoryRemoved(identifier)]
    else if act == ActionRefresh then [SyncStarted]
    else if (act == ActionOpen || act == ActionCopyURL) && url != "" then
      var started := if act == ActionOpen then ProcessStarted(["sh", "-c", OpenCommand(launchPrefix, command, url)])
                     else ProcessStarted(["wl-copy", url]);
      [started] + (if history then [HistorySaved(query, identifier)] else [])
    else []
  }

  /**
   * The choice is saved in the history exactly after an open or a copy of a
   * resolved URL with the history enabled, and always right after the process start.
   */
  lemma HistorySavedAfterLaunch(act: string, deleteAction: string, url: string, history: bool,
                                launchPrefix: string, command: string, identifier: string, query: string)
    ensures var e := Effects(act, deleteAction, url, history, launchPrefix, command, identifier, query);
            && (HistorySaved(query, identifier) in e <==>
                  history && act != deleteAction && (act == ActionOpen || act == ActionCopyURL) && url != "")
            && (forall k :: 0 <= k < |e| && e[k].HistorySaved? ==> k > 0 && e[k - 1].ProcessStarted?)
  {
    var e := Effects(act, deleteAction, url, history, launchPrefix, command, identifier, query);
    if act != deleteAction && act != ActionRefresh && (act == ActionOpen || act == ActionCopyURL) && url != "" {
      assert e[0].ProcessStarted?;
    }
  }

  /**
   * The activation of `identifier` by `action`, with the history's delete
   * action named `deleteAction`. `history` is whether the history is
   * enabled, `launchPrefix` and `command` make up the opener.
   */
  method Activate(store: Store, history: bool, deleteAction: string, launchPrefix: string, command: string,
                  identifier: string, action: string, query: string, readFails: bool)
    returns (effects: seq<Effect>)
    ensures effects == Effects(ActionOf(action), deleteAction, ResolveURL(store, identifier, readFails), history,
                               launchPrefix, command, identifier, query)
    ensures HistorySaved(query, identifier) in effects <==>
              && history
              && (var act := ActionOf(action); act != deleteAction && (act == ActionOpen || act == ActionCopyURL))
              && ResolveURL(store, identifier, readFails) != ""
    ensures forall k :: 0 <= k < |effects| && effects[k].HistorySaved? ==> k > 0 && effects[k - 1].ProcessStarted?
  {
    HistorySavedAfterLaunch(ActionOf(action), deleteAction, ResolveURL(store, identifier, readFails), history,
                            launchPrefix, command, identifier, query);
    var act := action;
    if act == "" {
      act := ActionOpen;
    }
    if act == deleteAction {
      return [HistoryRemoved(identifier)];
    } else if act == ActionRefresh {
      return [SyncStarted];
    }
    var started: Effect;
    if act == ActionOpen {
      var url := ResolveURL(store, identifier, readFails);
      if url == "" {
        return [];
      }
      started := ProcessStarted(["sh", "-c", OpenCommand(launchPrefix, command, url)]);
    } else if act == ActionCopyURL {
      var url := ResolveURL(store, identifier, readFails);
      if url == "" {
        return [];
      }
      started := ProcessStarted(["wl-copy", url]);
    } else {
      return [];
    }
    effects := [started];
    if history {
      effects := effects + [HistorySaved(query, identifier)];
    }
  }
}
