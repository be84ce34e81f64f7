/** When `main` runs again: the wrapped `history.pushState` and
    `history.replaceState`, the `popstate` and `hashchange` listeners, and the
    `MutationObserver` that compares `location.href` with `lastUrl`. The page
    starts with one `main()` call at load, with `lastUrl` set to the loaded URL.

    Only the observer writes `lastUrl`; the four hooks call `main` and leave it
    alone. `Step` is that behaviour. `StepRecording` is the variant in which a
    hook also records the URL it ran `main` for, which is what keeps the last
    `main` call in step with the page. */
module Watcher {
  import opened Base

  datatype Event =
    | PushState(url: Option<string>)     // `history.pushState(state, title[, url])`
    | ReplaceState(url: Option<string>)  // `history.replaceState(state, title[, url])`
    | PopState(target: string)           // back/forward to `target`
    | HashChange(target: string)         // only the fragment changed, now `target`
    | Navigate(target: string)           // a URL change none of the four hooks sees
    | Mutation                           // the observer's callback after a DOM change

  predicate IsHook(ev: Event) {
    ev.PushState? || ev.ReplaceState? || ev.PopState? || ev.HashChange?
  }

  /** `location.href` and the observer's `lastUrl`. */
  datatype Page = Page(href: string, lastUrl: string)

  /** The page right after loading: `lastUrl = window.location.href`. */
  function Load(href: string): Page {
    Page(href, href)
  }

  /** The address after the event, as the browser sets it: a history call
      without a URL keeps the current one. */
  function HrefAfter(href: string, ev: Event): string {
    match ev
    case PushState(u) => if u.Some? then u.value else href
    case ReplaceState(u) => if u.Some? then u.value else href
    case PopState(t) => t
    case HashChange(t) => t
    case Navigate(t) => t
    case Mutation => href
  }

  /** The page after an event, and whether `main` ran. */
  datatype StepResult = StepResult(page: Page, fired: bool)

  /** One event as the script handles it. */
  function Step(p: Page, ev: Event): (r: StepResult)
    // the browser moves the page; only the observer touches `lastUrl`
    ensures r.page.href == HrefAfter(p.href, ev)
    ensures r.page.lastUrl == if ev.Mutation? then p.href else p.lastUrl
    // a hook always runs `main`; the observer only when the address moved off `lastUrl`
    ensures IsHook(ev) ==> r.fired
    ensures ev.Navigate? ==> !r.fired
    ensures ev.Mutation? ==> (r.fired <==> p.href != p.lastUrl)
  {
    match ev
    case Mutation =>
      if p.href != p.lastUrl then StepResult(Page(p.href, p.href), true)
      else StepResult(p, false)
    case Navigate(t) => StepResult(p.(href := t), false)
    case _ => StepResult(p.(href := HrefAfter(p.href, ev)), true)
  }

  /** `Step`, except that a hook running `main` also sets `lastUrl`. */
  function StepRecording(p: Page, ev: Event): (r: StepResult)
    ensures r.fired == Step(p, ev).fired && r.page.href == Step(p, ev).page.href
    // after any `main` call, `lastUrl` names the address it ran for
    ensures r.fired ==> r.page.lastUrl == r.page.href
    ensures !r.fired ==> r.page.lastUrl == p.lastUrl
  {
    var r := Step(p, ev);
    if r.fired then StepResult(r.page.(lastUrl := r.page.href), true) else r
  }

  /** The page after a sequence of events, and the addresses `main` ran for. */
  datatype Trace = Trace(page: Page, calls: seq<string>)

  function Run(p: Page, evs: seq<Event>, recording: bool): (r: Trace)
    ensures |r.calls| <= |evs|
    decreases |evs|
  {
    if |evs| == 0 then Trace(p, [])
    else
      var st := if recording then StepRecording(p, evs[0]) else Step(p, evs[0]);
      var rest := Run(st.page, evs[1..], recording);
      Trace(rest.page, (if st.fired then [st.page.href] else []) + rest.calls)
  }

  /** The address of the latest `main` call, `initial` being the one at load. */
  function LastCall(initial: string, calls: seq<string>): string {
    if |calls| == 0 then initial else calls[|calls| - 1]
  }

  lemma LastCallAppend(initial: string, head: seq<string>, calls: seq<string>)
    requires |head| <= 1
    ensures LastCall(initial, head + calls) == LastCall(LastCall(initial, head), calls)
  {
    if |calls| > 0 {
      assert (head + calls)[|head + calls| - 1] == calls[|calls| - 1];
    }
  }

  // ---------------------------------------------------------------------------
  // The observer on its own

  /** A second DOM change at the same address does not run `main` again. */
  lemma MutationSettles(p: Page)
    ensures !Step(Step(p, Mutation).page, Mutation).fired
    ensures Step(Step(p, Mutation).page, Mutation).page == Step(p, Mutation).page
  {
  }

  /** `lastUrl` is the address of the latest `main` call, and stays so over
      any events when the hooks record it; as written, only over runs in which
      no hook fires. */
  lemma {:induction false} LastUrlTracksLastCall(p: Page, evs: seq<Event>, recording: bool, initial: string)
    requires p.lastUrl == initial
    requires recording || forall i :: 0 <= i < |evs| ==> !IsHook(evs[i])
    ensures Run(p, evs, recording).page.lastUrl == LastCall(initial, Run(p, evs, recording).calls)
    decreases |evs|
  {
    if |evs| > 0 {
      var st := if recording then StepRecording(p, evs[0]) else Step(p, evs[0]);
      var head := if st.fired then [st.page.href] else [];
      assert st.page.lastUrl == LastCall(initial, head);
      assert recording || forall i :: 0 <= i < |evs[1..]| ==> !IsHook(evs[1..][i]) by {
        if !recording {
          forall i | 0 <= i < |evs[1..]|
            ensures !IsHook(evs[1..][i])
          {
            assert evs[1..][i] == evs[i + 1];
          }
        }
      }
      LastUrlTracksLastCall(st.page, evs[1..], recording, LastCall(initial, head));
      LastCallAppend(initial, head, Run(st.page, evs[1..], recording).calls);
    }
  }

  /** Whatever happened before, the next DOM change leaves `main` last run for
      the current address, when the hooks record it. */
  lemma RecordingCatchesUp(href: string, evs: seq<Event>)
    ensures var r := Run(Load(href), evs + [Mutation], true);
            LastCall(href, r.calls) == r.page.href
  {
    LastUrlTracksLastCall(Load(href), evs + [Mutation], true, href);
    RunAppendMutation(Load(href), evs, true);
  }

  /** As written, the same holds as long as no hook fires. */
  lemma ObserverAloneCatchesUp(href: string, evs: seq<Event>)
    requires forall i :: 0 <= i < |evs| ==> !IsHook(evs[i])
    ensures var r := Run(Load(href), evs + [Mutation], false);
            LastCall(href, r.calls) == r.page.href
  {
    var all := evs + [Mutation];
    assert forall i :: 0 <= i < |all| ==> !IsHook(all[i]) by {
      forall i | 0 <= i < |all|
        ensures !IsHook(all[i])
      {
        if i < |evs| {
          assert all[i] == evs[i];
        }
      }
    }
    LastUrlTracksLastCall(Load(href), all, false, href);
    RunAppendMutation(Load(href), evs, false);
  }

  /** A run ending in a DOM change ends with `lastUrl` equal to the address. */
  lemma {:induction false} RunAppendMutation(p: Page, evs: seq<Event>, recording: bool)
    ensures Run(p, evs + [Mutation], recording).page.lastUrl == Run(p, evs + [Mutation], recording).page.href
    decreases |evs|
  {
    if |evs| == 0 {
      assert evs + [Mutation] == [Mutation];
    } else {
      assert (evs + [Mutation])[1..] == evs[1..] + [Mutation];
      var st := if recording then StepRecording(p, evs[0]) else Step(p, evs[0]);
      RunAppendMutation(st.page, evs[1..], recording);
    }
  }

  // ---------------------------------------------------------------------------
  // The hooks as written

  /** Back/forward to a new folder runs `main`, and the next DOM change runs
      it a second time for the same address. */
  lemma PopThenMutationRunsTwice(a: string, b: string)
    requires a != b
    ensures Run(Load(a), [PopState(b), Mutation], false).calls == [b, b]
  {
    assert [PopState(b), Mutation][1..] == [Mutation];
    assert [Mutation][1..] == [];
  }

  /** Back/forward to `b`, then a change of address the hooks do not see back
      to the loaded `a`: the observer compares with the stale `lastUrl == a`
      and stays quiet, so the page shows `a` while `main` last ran for `b`. */
  lemma ReturnToLoadedUrlMissed(a: string, b: string)
    requires a != b
    ensures var r := Run(Load(a), [PopState(b), Navigate(a), Mutation], false);
            r.calls == [b] && r.page.href == a && LastCall(a, r.calls) != r.page.href
  {
    var evs := [PopState(b), Navigate(a), Mutation];
    assert evs[1..] == [Navigate(a), Mutation];
    assert evs[1..][1..] == [Mutation];
    assert evs[1..][1..][1..] == [];
    var p1 := Page(b, a);
    var p2 := Page(a, a);
    assert Run(p2, [Mutation], false) == Trace(p2, []);
    assert Run(p1, [Navigate(a), Mutation], false) == Trace(p2, []);
    assert Run(Load(a), evs, false) == Trace(p2, [b]);
  }
}
