/**
 * The scraper over an abstract page. A solution element is a value whose
 * parts are present or missing (`find_element` raising NoSuchElementException
 * is a missing part); the page the loop sees on each pass is a sequence of
 * such elements together with whether the load-more marker was found after
 * the pass. extract_kata_from_solution is ExtractKata; get_completed_katas is
 * the method GetCompletedKatas, proved against the function Collect.
 */
module WebScraper {
  import opened Wrappers
  import opened Text
  import opened Katas
  import opened AppState

  /** The `item-title` element: the texts of its `a` and `span` children, None where a child is missing. */
  datatype TitleElement = TitleElement(anchorText: Option<string>, spanText: Option<string>)

  /** A `code` element: its `data-language` attribute (None when absent) and the text of its inner HTML. */
  datatype CodeElement = CodeElement(dataLanguage: Option<string>, text: string)

  /** A `markdown` element and its `code` child, if any. */
  datatype MarkdownElement = MarkdownElement(code: Option<CodeElement>)

  /** One `list-item-solutions` element. */
  datatype Solution = Solution(title: Option<TitleElement>, markdowns: seq<MarkdownElement>)

  /** What one pass of the loop sees: the solutions on the page, then whether the marker was found. */
  datatype Pass = Pass(solutions: seq<Solution>, markerPresent: bool)

  /** `None.lower()` for a code element without `data-language`: an AttributeError nothing catches. */
  datatype ScrapeError = MissingDataLanguage

  predicate HasName(s: Solution) {
    s.title.Some? && s.title.value.anchorText.Some?
  }

  function NameOf(s: Solution): string
    requires HasName(s)
  {
    s.title.value.anchorText.value
  }

  /** Every element extract_kata_from_solution looks up is there. */
  predicate HasParts(s: Solution) {
    && HasName(s)
    && s.title.value.spanText.Some?
    && |s.markdowns| > 0
    && s.markdowns[0].code.Some?
  }

  function LevelOf(s: Solution): string
    requires HasParts(s)
  {
    s.title.value.spanText.value
  }

  function CodeOf(s: Solution): CodeElement
    requires HasParts(s)
  {
    s.markdowns[0].code.value
  }

  /** A new kata: every part present, the name not yet pushed, "kyu" in the level (case-sensitive). */
  predicate Acceptable(s: Solution, pushed: seq<string>) {
    HasParts(s) && NameOf(s) !in pushed && Contains(LevelOf(s), "kyu")
  }

  /**
   * extract_kata_from_solution: a Kata for an acceptable solution with a
   * language attribute, the error for one without, and None in every other
   * case — a missing part never raises.
   */
  function ExtractKata(s: Solution, pushed: seq<string>): (r: Result<Option<Kata>, ScrapeError>)
    ensures r.Ok? && r.value.Some? <==> Acceptable(s, pushed) && CodeOf(s).dataLanguage.Some?
    ensures r.Err? <==> Acceptable(s, pushed) && CodeOf(s).dataLanguage.None?
    ensures r.Ok? && r.value.Some? ==>
      r.value.value == Kata(NameOf(s), LevelOf(s), Lower(CodeOf(s).dataLanguage.value), CodeOf(s).text)
    ensures HasName(s) && NameOf(s) in pushed ==> r == Ok(None)
  {
    match s.title
    case None => Ok(None)
    case Some(title) =>
      match title.anchorText
      case None => Ok(None)
      case Some(name) =>
        if name in pushed then Ok(None)
        else
          match title.spanText
          case None => Ok(None)
          case Some(level) =>
            if !Contains(level, "kyu") then Ok(None)
            else if |s.markdowns| == 0 then Ok(None)
            else
              match s.markdowns[0].code
              case None => Ok(None)
              case Some(code) =>
                match code.dataLanguage
                case None => Err(MissingDataLanguage)
                case Some(language) => Ok(Some(Kata(name, level, Lower(language), code.text)))
  }

  // ---------------------------------------------------------------------
  // The collect loop as a function
  // ---------------------------------------------------------------------

  /** The two lists of the application state. */
  datatype Ledger = Ledger(completed: seq<string>, pushed: seq<string>)

  /** A kata is accepted: its name is added to the completed list, then to the pushed list. */
  function Accept(l: Ledger, name: string): Ledger {
    Ledger(Added(l.completed, name), Added(l.pushed, name))
  }

  /** One pass over the solutions on the page; stops early once `pushStep` katas are held. */
  function ScanPass(solutions: seq<Solution>, pushStep: int, katas: seq<Kata>, l: Ledger): (seq<Kata>, Ledger, Option<ScrapeError>)
    decreases |solutions|
  {
    if solutions == [] || |katas| >= pushStep then (katas, l, None)
    else
      match ExtractKata(solutions[0], l.pushed)
      case Err(e) => (katas, l, Some(e))
      case Ok(None) => ScanPass(solutions[1..], pushStep, katas, l)
      case Ok(Some(k)) => ScanPass(solutions[1..], pushStep, katas + [k], Accept(l, k.name))
  }

  /** Why the loop stopped. PassesExhausted: the model ran out of passes while the marker was still there. */
  datatype Stop = CountReached | MarkerAbsent | PassesExhausted | Faulted(error: ScrapeError)

  datatype Outcome = Outcome(katas: seq<Kata>, ledger: Ledger, stop: Stop, passesUsed: nat)

  /** get_completed_katas from pass `p` on, holding `katas` so far. */
  function Collect(passes: seq<Pass>, p: nat, pushStep: int, katas: seq<Kata>, l: Ledger): Outcome
    requires p <= |passes|
    decreases |passes| - p
  {
    if |katas| >= pushStep then Outcome(katas, l, CountReached, p)
    else if p == |passes| then Outcome(katas, l, PassesExhausted, p)
    else
      var (katas', l', fault) := ScanPass(passes[p].solutions, pushStep, katas, l);
      if fault.Some? then Outcome(katas', l', Faulted(fault.value), p + 1)
      else if !passes[p].markerPresent then Outcome(katas', l', MarkerAbsent, p + 1)
      else Collect(passes, p + 1, pushStep, katas', l')
  }

  // ---------------------------------------------------------------------
  // What the loop promises
  // ---------------------------------------------------------------------

  function Names(katas: seq<Kata>): seq<string> {
    seq(|katas|, i requires 0 <= i < |katas| => katas[i].name)
  }

  /**
   * From `(katas0, l0)` to `(katas, l)` only new katas were appended: their
   * names are distinct and were not pushed before, the pushed list grew by
   * exactly those names in order, the completed list took them in the same
   * order, and every new level contains "kyu".
   */
  ghost predicate Extends(katas0: seq<Kata>, l0: Ledger, katas: seq<Kata>, l: Ledger) {
    && katas0 <= katas
    && NoDuplicates(Names(katas[|katas0|..]))
    && (forall n :: n in Names(katas[|katas0|..]) ==> n !in l0.pushed)
    && l.pushed == l0.pushed + Names(katas[|katas0|..])
    && l.completed == AddedAll(l0.completed, Names(katas[|katas0|..]))
    && (forall i :: |katas0| <= i < |katas| ==> Contains(katas[i].level, "kyu"))
  }

  lemma ExtendsRefl(katas: seq<Kata>, l: Ledger)
    ensures Extends(katas, l, katas, l)
  {
    assert Names(katas[|katas|..]) == [];
  }

  lemma ExtendsStep(katas0: seq<Kata>, l0: Ledger, katas: seq<Kata>, l: Ledger, k: Kata)
    requires Extends(katas0, l0, katas, l)
    requires k.name !in l.pushed && Contains(k.level, "kyu")
    ensures Extends(katas0, l0, katas + [k], Accept(l, k.name))
  {
    var added := Names(katas[|katas0|..]);
    NewNamesSnoc(katas0, katas, k);
    FreshSnoc(l0.pushed, added, k.name);
    AddedAllSnoc(l0.completed, added, k.name);
    assert (katas + [k])[|katas|] == k;
  }

  /** The names added after `katas0`, one kata later. */
  lemma NewNamesSnoc(katas0: seq<Kata>, katas: seq<Kata>, k: Kata)
    requires katas0 <= katas
    ensures katas0 <= katas + [k]
    ensures Names((katas + [k])[|katas0|..]) == Names(katas[|katas0|..]) + [k.name]
  {
    assert (katas + [k])[|katas0|..] == katas[|katas0|..] + [k];
  }

  /** A name outside `pushed + added` keeps `added` distinct and fresh when appended. */
  lemma FreshSnoc(pushed: seq<string>, added: seq<string>, x: string)
    requires NoDuplicates(added) && (forall n :: n in added ==> n !in pushed)
    requires x !in pushed + added
    ensures NoDuplicates(added + [x]) && (forall n :: n in added + [x] ==> n !in pushed)
    ensures pushed + added + [x] == Added(pushed + added, x)
  {
    assert x !in added;
    assert forall i :: 0 <= i < |added| ==> (added + [x])[i] == added[i];
  }

  lemma {:induction false} ScanPassExtends(solutions: seq<Solution>, pushStep: int, katas0: seq<Kata>, l0: Ledger, katas: seq<Kata>, l: Ledger)
    requires Extends(katas0, l0, katas, l)
    ensures var (katas', l', _) := ScanPass(solutions, pushStep, katas, l);
      && Extends(katas0, l0, katas', l')
      && (|katas| < pushStep ==> |katas'| <= pushStep)
      && (|katas| >= pushStep ==> katas' == katas)
    decreases |solutions|
  {
    if solutions != [] && |katas| < pushStep {
      match ExtractKata(solutions[0], l.pushed)
      case Err(_) =>
      case Ok(None) =>
        ScanPassExtends(solutions[1..], pushStep, katas0, l0, katas, l);
      case Ok(Some(k)) =>
        ExtendsStep(katas0, l0, katas, l, k);
        ScanPassExtends(solutions[1..], pushStep, katas0, l0, katas + [k], Accept(l, k.name));
    }
  }

  lemma {:induction false} CollectExtends(passes: seq<Pass>, p: nat, pushStep: int, katas0: seq<Kata>, l0: Ledger, katas: seq<Kata>, l: Ledger)
    requires p <= |passes|
    requires Extends(katas0, l0, katas, l)
    ensures var o := Collect(passes, p, pushStep, katas, l);
      && Extends(katas0, l0, o.katas, o.ledger)
      && (|katas| < pushStep ==> |o.katas| <= pushStep)
      && (|katas| >= pushStep ==> o.katas == katas && o.ledger == l)
    decreases |passes| - p
  {
    if |katas| < pushStep && p < |passes| {
      var (katas', l', fault) := ScanPass(passes[p].solutions, pushStep, katas, l);
      ScanPassExtends(passes[p].solutions, pushStep, katas0, l0, katas, l);
      if fault.None? && passes[p].markerPresent {
        CollectExtends(passes, p + 1, pushStep, katas0, l0, katas', l');
      }
    }
  }

  /** Why the loop stops: the count only when it is reached, and the marker was there on every pass but the last. */
  lemma {:induction false} CollectStops(passes: seq<Pass>, p: nat, pushStep: int, katas: seq<Kata>, l: Ledger)
    requires p <= |passes|
    ensures var o := Collect(passes, p, pushStep, katas, l);
      && (o.stop == CountReached ==> |o.katas| >= pushStep)
      && (o.stop == PassesExhausted || o.stop.Faulted? ==> |o.katas| < pushStep)
      && p <= o.passesUsed <= |passes|
      && (o.stop == MarkerAbsent ==> o.passesUsed > p && !passes[o.passesUsed - 1].markerPresent)
      && (forall q :: p <= q < o.passesUsed - 1 ==> passes[q].markerPresent)
    decreases |passes| - p
  {
    if |katas| < pushStep && p < |passes| {
      var (katas', l', fault) := ScanPass(passes[p].solutions, pushStep, katas, l);
      ScanPassBelowStep(passes[p].solutions, pushStep, katas, l);
      if fault.None? && passes[p].markerPresent {
        CollectStops(passes, p + 1, pushStep, katas', l');
      }
    }
  }

  /** A pass that stops on a fault or at the end of the page may hold fewer than `pushStep` katas, but never stops at the count early. */
  lemma {:induction false} ScanPassBelowStep(solutions: seq<Solution>, pushStep: int, katas: seq<Kata>, l: Ledger)
    ensures var (katas', _, fault) := ScanPass(solutions, pushStep, katas, l);
      fault.Some? ==> |katas'| < pushStep
    decreases |solutions|
  {
    if solutions != [] && |katas| < pushStep {
      match ExtractKata(solutions[0], l.pushed)
      case Err(_) =>
      case Ok(None) =>
        ScanPassBelowStep(solutions[1..], pushStep, katas, l);
      case Ok(Some(k)) =>
        ScanPassBelowStep(solutions[1..], pushStep, katas + [k], Accept(l, k.name));
    }
  }

  /**
   * get_completed_katas(k) from an empty result: at most `k` katas, none for
   * `k <= 0`; their names are distinct and were not pushed at entry; both
   * lists take the names in acceptance order; fewer than `k` katas means the
   * loop stopped for another reason than the count, and the loop ran on
   * exactly as long as the marker was found.
   */
  lemma CollectProperties(passes: seq<Pass>, pushStep: int, l0: Ledger)
    ensures var o := Collect(passes, 0, pushStep, [], l0);
      && (pushStep <= 0 ==> o == Outcome([], l0, CountReached, 0))
      && |o.katas| <= (if pushStep <= 0 then 0 else pushStep)
      && NoDuplicates(Names(o.katas))
      && (forall n :: n in Names(o.katas) ==> n !in l0.pushed)
      && o.ledger.pushed == l0.pushed + Names(o.katas)
      && o.ledger.completed == AddedAll(l0.completed, Names(o.katas))
      && (forall i :: 0 <= i < |o.katas| ==> Contains(o.katas[i].level, "kyu"))
      && (|o.katas| < pushStep ==> o.stop != CountReached)
      && o.passesUsed <= |passes|
      && (o.stop == MarkerAbsent ==> o.passesUsed > 0 && !passes[o.passesUsed - 1].markerPresent)
      && (forall q :: 0 <= q < o.passesUsed - 1 ==> passes[q].markerPresent)
  {
    ExtendsRefl([], l0);
    CollectExtends(passes, 0, pushStep, [], l0, [], l0);
    CollectStops(passes, 0, pushStep, [], l0);
    var o := Collect(passes, 0, pushStep, [], l0);
    assert o.katas[0..] == o.katas;
  }

  /** Solutions whose names are all pushed already give nothing. */
  predicate AllSeen(passes: seq<Pass>, pushed: seq<string>) {
    forall p, i :: 0 <= p < |passes| && 0 <= i < |passes[p].solutions| ==>
      !HasName(passes[p].solutions[i]) || NameOf(passes[p].solutions[i]) in pushed
  }

  lemma {:induction false} ScanPassSeen(solutions: seq<Solution>, pushStep: int, l: Ledger)
    requires forall i :: 0 <= i < |solutions| ==> !HasName(solutions[i]) || NameOf(solutions[i]) in l.pushed
    ensures ScanPass(solutions, pushStep, [], l) == ([], l, None)
    decreases |solutions|
  {
    if solutions != [] && 0 < pushStep {
      assert ExtractKata(solutions[0], l.pushed) == Ok(None);
      ScanPassSeen(solutions[1..], pushStep, l);
    }
  }

  /** A second run over pages it has already exported collects nothing and changes nothing. */
  lemma {:induction false} CollectSeen(passes: seq<Pass>, p: nat, pushStep: int, l: Ledger)
    requires p <= |passes|
    requires AllSeen(passes, l.pushed)
    ensures var o := Collect(passes, p, pushStep, [], l);
      o.katas == [] && o.ledger == l && !o.stop.Faulted?
    decreases |passes| - p
  {
    if 0 < pushStep && p < |passes| {
      ScanPassSeen(passes[p].solutions, pushStep, l);
      CollectSeen(passes, p + 1, pushStep, l);
    }
  }

  // ---------------------------------------------------------------------
  // What the loop does not miss
  // ---------------------------------------------------------------------

  /** Every part present, "kyu" in the level and a language attribute: the kata that is taken when not yet pushed. */
  predicate Exportable(s: Solution) {
    HasParts(s) && Contains(LevelOf(s), "kyu") && CodeOf(s).dataLanguage.Some?
  }

  /** A solution that reaches `.lower()` without a language attribute unless its name is pushed already. */
  predicate Faultable(s: Solution) {
    HasParts(s) && Contains(LevelOf(s), "kyu") && CodeOf(s).dataLanguage.None?
  }

  /** The solution cannot raise against `pushed`, nor against any list that contains it. */
  predicate FaultFree(s: Solution, pushed: seq<string>) {
    Faultable(s) ==> NameOf(s) in pushed
  }

  /** The distinct names of the exportable solutions not pushed yet. */
  function FreshNames(solutions: seq<Solution>, pushed: seq<string>): set<string> {
    set i | 0 <= i < |solutions| && Exportable(solutions[i]) && NameOf(solutions[i]) !in pushed :: NameOf(solutions[i])
  }

  /** A pass only adds to the pushed list. */
  lemma ScanPassGrows(solutions: seq<Solution>, pushStep: int, katas: seq<Kata>, l: Ledger)
    ensures l.pushed <= ScanPass(solutions, pushStep, katas, l).1.pushed
  {
    ExtendsRefl(katas, l);
    ScanPassExtends(solutions, pushStep, katas, l, katas, l);
  }

  /**
   * A pass over solutions none of which can raise does not fault, and when
   * it ends below the count, the name of every exportable solution it saw
   * is pushed: the solutions it skipped were pushed already.
   */
  lemma {:induction false} ScanPassComplete(solutions: seq<Solution>, pushStep: int, katas: seq<Kata>, l: Ledger)
    requires forall i :: 0 <= i < |solutions| ==> FaultFree(solutions[i], l.pushed)
    ensures var (katas', l', fault) := ScanPass(solutions, pushStep, katas, l);
      && fault.None?
      && (|katas'| < pushStep ==>
            forall i :: 0 <= i < |solutions| && Exportable(solutions[i]) ==> NameOf(solutions[i]) in l'.pushed)
    decreases |solutions|
  {
    if solutions != [] && |katas| < pushStep {
      var s := solutions[0];
      var rest := solutions[1..];
      assert FaultFree(s, l.pushed);
      match ExtractKata(s, l.pushed)
      case Err(_) =>
        assert false;
      case Ok(None) =>
        ScanPassComplete(rest, pushStep, katas, l);
        ScanPassGrows(rest, pushStep, katas, l);
        var (katas', l', _) := ScanPass(rest, pushStep, katas, l);
        if |katas'| < pushStep {
          TailSeen(solutions, l'.pushed);
        }
      case Ok(Some(k)) =>
        var l1 := Accept(l, k.name);
        assert forall i :: 0 <= i < |rest| ==> FaultFree(rest[i], l1.pushed) by {
          forall i | 0 <= i < |rest| ensures FaultFree(rest[i], l1.pushed) {
            assert FaultFree(solutions[i + 1], l.pushed);
          }
        }
        ScanPassComplete(rest, pushStep, katas + [k], l1);
        ScanPassGrows(rest, pushStep, katas + [k], l1);
        var (katas', l', _) := ScanPass(rest, pushStep, katas + [k], l1);
        if |katas'| < pushStep {
          TailSeen(solutions, l'.pushed);
        }
    }
  }

  /** What holds for the first solution and for every later one holds for all of them. */
  lemma TailSeen(solutions: seq<Solution>, pushed: seq<string>)
    requires solutions != []
    requires Exportable(solutions[0]) ==> NameOf(solutions[0]) in pushed
    requires forall i :: 0 <= i < |solutions[1..]| && Exportable(solutions[1..][i]) ==> NameOf(solutions[1..][i]) in pushed
    ensures forall i :: 0 <= i < |solutions| && Exportable(solutions[i]) ==> NameOf(solutions[i]) in pushed
  {
    forall i | 0 <= i < |solutions| && Exportable(solutions[i]) ensures NameOf(solutions[i]) in pushed {
      if i > 0 {
        assert solutions[1..][i - 1] == solutions[i];
      }
    }
  }

  /**
   * A pass over solutions none of which can raise, holding at least as
   * many distinct fresh exportable names as are still wanted, reaches the
   * count exactly.
   */
  lemma ScanPassReachesCount(solutions: seq<Solution>, pushStep: int, katas: seq<Kata>, l: Ledger)
    requires forall i :: 0 <= i < |solutions| ==> FaultFree(solutions[i], l.pushed)
    requires |katas| <= pushStep
    requires |FreshNames(solutions, l.pushed)| >= pushStep - |katas|
    ensures var (katas', _, fault) := ScanPass(solutions, pushStep, katas, l);
      fault.None? && |katas'| == pushStep
  {
    var (katas', l', fault) := ScanPass(solutions, pushStep, katas, l);
    ScanPassComplete(solutions, pushStep, katas, l);
    ExtendsRefl(katas, l);
    ScanPassExtends(solutions, pushStep, katas, l, katas, l);
    if |katas'| < pushStep {
      var added := Names(katas'[|katas|..]);
      var newNames := FreshNames(solutions, l.pushed);
      var addedSet := set n | n in added;
      assert newNames <= addedSet by {
        forall n | n in newNames ensures n in added {
          var i :| 0 <= i < |solutions| && Exportable(solutions[i]) && NameOf(solutions[i]) !in l.pushed && n == NameOf(solutions[i]);
          assert n in l'.pushed;
        }
      }
      SubsetCard(newNames, addedSet);
      SetOfSeqCard(added);
      assert false;
    }
  }

  lemma SubsetCard<T>(a: set<T>, b: set<T>)
    requires a <= b
    ensures |a| <= |b|
  {
    assert b == a + (b - a);
  }

  lemma {:induction false} SetOfSeqCard<T>(s: seq<T>)
    ensures |(set x | x in s)| <= |s|
  {
    if s != [] {
      SetOfSeqCard(s[1..]);
      assert (set x | x in s) == (set x | x in s[1..]) + {s[0]};
    }
  }

  /** A pass over `a + b` is the pass over `a`, then, unless it faulted, the pass over `b`. */
  lemma {:induction false} ScanPassConcat(a: seq<Solution>, b: seq<Solution>, pushStep: int, katas: seq<Kata>, l: Ledger)
    ensures var (katas', l', fault) := ScanPass(a, pushStep, katas, l);
      ScanPass(a + b, pushStep, katas, l) == if fault.Some? then (katas', l', fault) else ScanPass(b, pushStep, katas', l')
    decreases |a|
  {
    if a == [] {
      assert a + b == b;
    } else if |katas| < pushStep {
      assert (a + b)[0] == a[0] && (a + b)[1..] == a[1..] + b;
      match ExtractKata(a[0], l.pushed)
      case Err(_) =>
      case Ok(None) =>
        ScanPassConcat(a[1..], b, pushStep, katas, l);
      case Ok(Some(k)) =>
        ScanPassConcat(a[1..], b, pushStep, katas + [k], Accept(l, k.name));
    } else {
      assert a + b != [];
    }
  }

  /**
   * get_completed_katas(k), k > 0: when the first page, up to some point,
   * holds at least `k` distinct fresh exportable names and nothing before
   * that point can raise, exactly `k` katas come back after one pass and the
   * pushed list grows by exactly `k` names; the loop ends on the count,
   * or on the missing marker if it is missing.
   */
  lemma CollectComplete(passes: seq<Pass>, pushStep: int, l0: Ledger, j: nat)
    requires |passes| > 0 && pushStep > 0 && j <= |passes[0].solutions|
    requires forall i :: 0 <= i < j ==> FaultFree(passes[0].solutions[i], l0.pushed)
    requires |FreshNames(passes[0].solutions[..j], l0.pushed)| >= pushStep
    ensures var o := Collect(passes, 0, pushStep, [], l0);
      && |o.katas| == pushStep
      && o.passesUsed == 1
      && o.stop == (if passes[0].markerPresent then CountReached else MarkerAbsent)
      && o.ledger.pushed == l0.pushed + Names(o.katas)
      && |o.ledger.pushed| == |l0.pushed| + pushStep
  {
    var sol := passes[0].solutions;
    assert sol == sol[..j] + sol[j..];
    ScanPassReachesCount(sol[..j], pushStep, [], l0);
    ScanPassConcat(sol[..j], sol[j..], pushStep, [], l0);
    CollectProperties(passes, pushStep, l0);
  }

  /**
   * A page with two fragments already in the ledger and three new ones,
   * read for two katas: exactly two come back and the ledger grows by
   * exactly two names.
   */
  lemma CollectTwoOfThreeNew(passes: seq<Pass>, l0: Ledger, a: Solution, b: Solution, c: Solution, d: Solution, e: Solution)
    requires |passes| > 0 && passes[0].solutions == [a, b, c, d, e]
    requires Exportable(a) && Exportable(b) && Exportable(c) && Exportable(d) && Exportable(e)
    requires NameOf(a) in l0.pushed && NameOf(b) in l0.pushed
    requires NameOf(c) !in l0.pushed && NameOf(d) !in l0.pushed && NameOf(e) !in l0.pushed
    requires NameOf(c) != NameOf(d) && NameOf(c) != NameOf(e) && NameOf(d) != NameOf(e)
    ensures var o := Collect(passes, 0, 2, [], l0);
      && |o.katas| == 2
      && o.ledger.pushed == l0.pushed + Names(o.katas)
      && |o.ledger.pushed| == |l0.pushed| + 2
  {
    var sol := passes[0].solutions;
    assert sol[..5] == sol;
    assert {NameOf(c), NameOf(d)} <= FreshNames(sol, l0.pushed) by {
      assert sol[2] == c && sol[3] == d;
    }
    SubsetCard({NameOf(c), NameOf(d)}, FreshNames(sol, l0.pushed));
    CollectComplete(passes, 2, l0, 5);
  }

  // ---------------------------------------------------------------------
  // The loop
  // ---------------------------------------------------------------------

  /** The pass from solution `i` on, below the count: what solution `i` gives decides the next step. */
  lemma ScanPassAt(solutions: seq<Solution>, i: nat, pushStep: int, katas: seq<Kata>, l: Ledger)
    requires i < |solutions| && |katas| < pushStep
    ensures ScanPass(solutions[i..], pushStep, katas, l) ==
      match ExtractKata(solutions[i], l.pushed)
      case Err(e) => (katas, l, Some(e))
      case Ok(None) => ScanPass(solutions[i + 1..], pushStep, katas, l)
      case Ok(Some(k)) => ScanPass(solutions[i + 1..], pushStep, katas + [k], Accept(l, k.name))
  {
    assert solutions[i..][1..] == solutions[i + 1..];
  }

  /** The inner `for solution in solutions` loop of one pass. */
  method ScanSolutions(solutions: seq<Solution>, pushStep: int, katas0: seq<Kata>, state: ApplicationState)
    returns (katas: seq<Kata>, fault: Option<ScrapeError>)
    requires state.Valid()
    modifies state
    ensures state.Valid()
    ensures ScanPass(solutions, pushStep, katas0, Ledger(old(state.completedKatas), old(state.pushedKatas)))
      == (katas, Ledger(state.completedKatas, state.pushedKatas), fault)
    ensures state.webDriver == old(state.webDriver)
    ensures state.differentFileDependingOnLanguage == old(state.differentFileDependingOnLanguage)
  {
    katas := katas0;
    fault := None;
    var i := 0;
    while i < |solutions|
      invariant 0 <= i <= |solutions|
      invariant state.Valid()
      invariant ScanPass(solutions, pushStep, katas0, Ledger(old(state.completedKatas), old(state.pushedKatas)))
        == ScanPass(solutions[i..], pushStep, katas, Ledger(state.completedKatas, state.pushedKatas))
      invariant state.webDriver == old(state.webDriver)
      invariant state.differentFileDependingOnLanguage == old(state.differentFileDependingOnLanguage)
    {
      if |katas| >= pushStep {
        break;
      }
      ScanPassAt(solutions, i, pushStep, katas, Ledger(state.completedKatas, state.pushedKatas));
      var extracted := ExtractKata(solutions[i], state.pushedKatas);
      if extracted.Err? {
        fault := Some(extracted.error);
        return;
      }
      if extracted.value.Some? {
        var kata := extracted.value.value;
        katas := katas + [kata];
        state.AddCompletedKata(kata.name);
        state.AddPushedKata(kata.name);
      }
      i := i + 1;
    }
  }

  /**
   * get_completed_katas over the given passes; `stop` says why the loop
   * ended and `passesUsed` how many passes it read.
   */
  method GetCompletedKatas(pushStep: int, passes: seq<Pass>, state: ApplicationState)
    returns (katas: seq<Kata>, stop: Stop, passesUsed: nat)
    requires state.Valid()
    modifies state
    ensures state.Valid()
    ensures Collect(passes, 0, pushStep, [], Ledger(old(state.completedKatas), old(state.pushedKatas)))
      == Outcome(katas, Ledger(state.completedKatas, state.pushedKatas), stop, passesUsed)
    ensures state.webDriver == old(state.webDriver)
    ensures state.differentFileDependingOnLanguage == old(state.differentFileDependingOnLanguage)
  {
    katas := [];
    var p := 0;
    while |katas| < pushStep
      invariant 0 <= p <= |passes|
      invariant state.Valid()
      invariant Collect(passes, 0, pushStep, [], Ledger(old(state.completedKatas), old(state.pushedKatas)))
        == Collect(passes, p, pushStep, katas, Ledger(state.completedKatas, state.pushedKatas))
      invariant state.webDriver == old(state.webDriver)
      invariant state.differentFileDependingOnLanguage == old(state.differentFileDependingOnLanguage)
      decreases |passes| - p
    {
      if p == |passes| {
        stop, passesUsed := PassesExhausted, p;
        return;
      }
      var fault;
      katas, fault := ScanSolutions(passes[p].solutions, pushStep, katas, state);
      if fault.Some? {
        stop, passesUsed := Faulted(fault.value), p + 1;
        return;
      }
      if !passes[p].markerPresent {
        stop, passesUsed := MarkerAbsent, p + 1;
        return;
      }
      p := p + 1;
    }
    stop, passesUsed := CountReached, p;
  }
}
