/**
 * ApplicationState: the process-wide ledger of kata names. Both lists only
 * grow, and only by names they do not already hold, so they stay free of
 * duplicates; every other component consults them to skip katas already
 * exported.
 */
module AppState {
  import opened Wrappers

  predicate NoDuplicates(names: seq<string>) {
    forall i, j :: 0 <= i < j < |names| ==> names[i] != names[j]
  }

  /** The list after `if name not in names: names.append(name)`. */
  function Added(names: seq<string>, name: string): (r: seq<string>)
    ensures forall x :: x in r <==> x in names || x == name
    ensures names <= r && |r| <= |names| + 1
    ensures name in names ==> r == names
    ensures NoDuplicates(names) ==> NoDuplicates(r)
  {
    if name in names then names else names + [name]
  }

  /** Adding the same name twice is the same as adding it once. */
  lemma AddedIdempotent(names: seq<string>, name: string)
    ensures Added(Added(names, name), name) == Added(names, name)
  {
  }

  /** The list after adding each of `xs` in turn. */
  function AddedAll(names: seq<string>, xs: seq<string>): (r: seq<string>)
    ensures forall x :: x in r <==> x in names || x in xs
    ensures names <= r
    ensures NoDuplicates(names) ==> NoDuplicates(r)
  {
    if xs == [] then names else Added(AddedAll(names, xs[..|xs| - 1]), xs[|xs| - 1])
  }

  /** Distinct names none of which is in the list yet are appended in order. */
  lemma {:induction false} AddedAllFresh(names: seq<string>, xs: seq<string>)
    requires NoDuplicates(xs)
    requires forall x :: x in xs ==> x !in names
    ensures AddedAll(names, xs) == names + xs
  {
    if xs != [] {
      var init := xs[..|xs| - 1];
      assert NoDuplicates(init);
      AddedAllFresh(names, init);
      assert xs[|xs| - 1] !in init;
      assert xs == init + [xs[|xs| - 1]];
    }
  }

  lemma AddedAllSnoc(names: seq<string>, xs: seq<string>, x: string)
    ensures AddedAll(names, xs + [x]) == Added(AddedAll(names, xs), x)
  {
    assert (xs + [x])[..|xs|] == xs;
  }

  /** The browser session the state holds; only its identity matters here. */
  datatype Driver = Driver(session: nat)

  class ApplicationState {
    var webDriver: Option<Driver>
    var completedKatas: seq<string>
    var pushedKatas: seq<string>
    var differentFileDependingOnLanguage: bool

    ghost predicate Valid()
      reads this
    {
      NoDuplicates(completedKatas) && NoDuplicates(pushedKatas)
    }

    /** No driver, both lists empty, one file for every language. */
    constructor ()
      ensures Valid()
      ensures webDriver == None && completedKatas == [] && pushedKatas == []
      ensures !differentFileDependingOnLanguage
    {
      webDriver := None;
      completedKatas := [];
      pushedKatas := [];
      differentFileDependingOnLanguage := false;
    }

    method SetDifferentFileDependingOnLanguage(value: bool)
      modifies this
      ensures differentFileDependingOnLanguage == value
      ensures webDriver == old(webDriver) && completedKatas == old(completedKatas) && pushedKatas == old(pushedKatas)
    {
      differentFileDependingOnLanguage := value;
    }

    method SetWebDriver(driver: Option<Driver>)
      modifies this
      ensures webDriver == driver
      ensures completedKatas == old(completedKatas) && pushedKatas == old(pushedKatas)
      ensures differentFileDependingOnLanguage == old(differentFileDependingOnLanguage)
    {
      webDriver := driver;
    }

    /** add_completed_kata: appended at the end unless already there; nothing else changes. */
    method AddCompletedKata(name: string)
      requires Valid()
      modifies this
      ensures Valid()
      ensures completedKatas == Added(old(completedKatas), name)
      ensures pushedKatas == old(pushedKatas) && webDriver == old(webDriver)
      ensures differentFileDependingOnLanguage == old(differentFileDependingOnLanguage)
    {
      if name !in completedKatas {
        completedKatas := completedKatas + [name];
      }
    }

    /** add_pushed_kata: appended at the end unless already there; nothing else changes. */
    method AddPushedKata(name: string)
      requires Valid()
      modifies this
      ensures Valid()
      ensures pushedKatas == Added(old(pushedKatas), name) && IsKataPushed(name)
      ensures completedKatas == old(completedKatas) && webDriver == old(webDriver)
      ensures differentFileDependingOnLanguage == old(differentFileDependingOnLanguage)
    {
      if name !in pushedKatas {
        pushedKatas := pushedKatas + [name];
      }
    }

    predicate IsKataPushed(name: string)
      reads this
    {
      name in pushedKatas
    }

    /**
     * cleanup: a held driver is quit and dropped; with none held the call
     * does nothing. `quitCalled` says whether `quit()` was sent.
     */
    method Cleanup() returns (quitCalled: bool)
      modifies this
      ensures quitCalled <==> old(webDriver).Some?
      ensures webDriver == None
      ensures completedKatas == old(completedKatas) && pushedKatas == old(pushedKatas)
      ensures differentFileDependingOnLanguage == old(differentFileDependingOnLanguage)
    {
      quitCalled := false;
      if webDriver.Some? {
        quitCalled := true;
        webDriver := None;
      }
    }
  }
}
