/**
 * The task post-status workflow of `Post\Status`: a task moves to the
 * custom `task-complete` status when a "complete" task-status term is
 * attached and back to `private` when none is; the editor's status
 * dropdown and the "Publish" button text follow that status.
 */
module PostStatus {
  import opened PhpArrays
  import opened PhpStrings

  // The class's `$params`.
  const PostType := "task"
  const StatusSlug := "task-complete"
  const StatusLabel := "Complete"
  const Domain := "default"
  const Context := "backend"

  /** The `replacements` literal, which writes the same key twice. */
  const Replacements: seq<(string, string)> := Merge([], [("Publish", "Complete"), ("Publish", "Complete")])

  /** The repeated key collapses: one pair is left, so `strtr` replaces a single word. */
  lemma ReplacementsHaveOnePair()
    ensures Replacements == [("Publish", "Complete")]
  {
    assert [("Publish", "Complete"), ("Publish", "Complete")][1..] == [("Publish", "Complete")];
  }

  /** What `strpos(..., 'complete') !== false` tests, on a status or a term slug. */
  predicate MentionsComplete(s: string) {
    Contains(s, "complete")
  }

  /** Some attached task-status term slug mentions "complete". */
  function HasCompletedTerm(slugs: seq<string>): (found: bool)
    ensures found <==> exists slug | slug in slugs :: MentionsComplete(slug)
    ensures found ==> slugs != []
  {
    exists i | 0 <= i < |slugs| :: MentionsComplete(slugs[i])
  }

  /** The custom status mentions "complete" and `private` does not. */
  lemma StatusesClassified()
    ensures MentionsComplete(StatusSlug)
    ensures !MentionsComplete("private")
  {
    assert OccursAt(StatusSlug, "complete", 5);
  }

  /**
   * The status `manage_post_status` leaves a post in: the custom status when
   * a "complete" term is attached and the status does not say so yet,
   * `private` when no such term is attached but the status says complete,
   * and the current status otherwise.
   */
  function Reconciled(status: string, slugs: seq<string>): (r: string)
    ensures MentionsComplete(r) <==> HasCompletedTerm(slugs)
    ensures MentionsComplete(status) == HasCompletedTerm(slugs) ==> r == status
    ensures r != status ==> r == StatusSlug || r == "private"
  {
    StatusesClassified();
    var hasTerm, hasStatus := HasCompletedTerm(slugs), MentionsComplete(status);
    if hasTerm && !hasStatus then StatusSlug
    else if !hasTerm && hasStatus then "private"
    else status
  }

  /** Reconciling a reconciled status changes nothing: the hook settles in one step. */
  lemma {:induction false} ReconciledIsFixedPoint(status: string, slugs: seq<string>)
    ensures Reconciled(Reconciled(status, slugs), slugs) == Reconciled(status, slugs)
  {
  }

  /** Whether the terms are listed in another order makes no difference. */
  lemma {:induction false} TermOrderIrrelevant(slugs: seq<string>, reordered: seq<string>)
    requires multiset(slugs) == multiset(reordered)
    ensures HasCompletedTerm(slugs) == HasCompletedTerm(reordered)
    ensures forall status :: Reconciled(status, slugs) == Reconciled(status, reordered)
  {
    forall a: seq<string>, b: seq<string> | multiset(a) == multiset(b) && HasCompletedTerm(a)
      ensures HasCompletedTerm(b)
    {
      var i :| 0 <= i < |a| && MentionsComplete(a[i]);
      assert a[i] in multiset(b);
      var j :| 0 <= j < |b| && b[j] == a[i];
    }
  }

  /**
   * The `foreach` over the task-status terms, stopping at the first slug
   * that mentions "complete".
   */
  method FindCompletedTerm(slugs: seq<string>) returns (found: bool)
    ensures found == HasCompletedTerm(slugs)
  {
    found := false;
    var i := 0;
    while i < |slugs|
      invariant 0 <= i <= |slugs|
      invariant !found
      invariant forall j | 0 <= j < i :: !MentionsComplete(slugs[j])
    {
      if Contains(slugs[i], "complete") {
        found := true;
        break;
      }
      i := i + 1;
    }
  }

  /** 0 when the hook would leave this status alone, 1 when it would update it. */
  function Unsettled(status: string, slugs: seq<string>): (pending: nat) {
    if Reconciled(status, slugs) == status then 0 else 1
  }

  /**
   * A task post as WordPress stores it: its status and the slugs of its
   * `task-status` terms (what `get_the_terms` returns).
   */
  class TaskPost {
    var status: string
    var statusTerms: seq<string>

    constructor (status: string, statusTerms: seq<string>)
      ensures this.status == status && this.statusTerms == statusTerms
    {
      this.status := status;
      this.statusTerms := statusTerms;
    }

    /**
     * The `wp_insert_post` callback. It returns how many `wp_update_post`
     * calls were made in all, counting those made when the update re-fires
     * this very hook.
     */
    method ManagePostStatus() returns (updates: nat)
      modifies this
      decreases Unsettled(status, statusTerms), 1
      ensures statusTerms == old(statusTerms)
      ensures status == Reconciled(old(status), statusTerms)
      ensures updates == if status == old(status) then 0 else 1
    {
      StatusesClassified();
      var hasCompletedTerm := FindCompletedTerm(statusTerms);
      var hasCompletedStatus := Contains(status, "complete");
      if hasCompletedTerm && !hasCompletedStatus {
        updates := UpdatePostStatus(StatusSlug);
      } else if !hasCompletedTerm && hasCompletedStatus {
        updates := UpdatePostStatus("private");
      } else {
        updates := 0;
      }
    }

    /**
     * `wp_update_post` with a new `post_status`: the status is stored and
     * `wp_insert_post` fires again, which runs `ManagePostStatus` on the
     * updated post.
     */
    method UpdatePostStatus(newStatus: string) returns (updates: nat)
      modifies this
      decreases Unsettled(newStatus, statusTerms), 2
      ensures statusTerms == old(statusTerms)
      ensures status == Reconciled(newStatus, statusTerms)
      ensures updates == if Reconciled(newStatus, statusTerms) == newStatus then 1 else 2
    {
      status := newStatus;
      var nested := ManagePostStatus();
      updates := 1 + nested;
    }
  }

  /** Saving a post twice: the second run of the hook issues no update. */
  method SaveTwice(post: TaskPost) returns (first: nat, second: nat)
    modifies post
    ensures first <= 1 && second == 0
    ensures post.status == Reconciled(old(post.status), old(post.statusTerms))
  {
    first := post.ManagePostStatus();
    ReconciledIsFixedPoint(old(post.status), post.statusTerms);
    second := post.ManagePostStatus();
  }

  /**
   * `strtr($s, array($from => $to))` with one pair: scanning left to right,
   * each occurrence is replaced and the scan resumes after it.
   */
  function StrTr(s: string, from: string, to: string): (r: string)
    requires from != ""
    ensures !Contains(s, from) ==> r == s
    ensures |from| <= |to| ==> |r| >= |s|
    decreases |s|
  {
    if |s| < |from| then s
    else if s[..|from|] == from then assert OccursAt(s, from, 0); to + StrTr(s[|from|..], from, to)
    else ContainsStep(s, from); [s[0]] + StrTr(s[1..], from, to)
  }

  /**
   * The first occurrence of the word, at `i`, is replaced, the text before
   * it is kept and the scan resumes after it. With the no-match clause of
   * `StrTr` this fixes the rewrite of every text.
   */
  lemma StrTrFirstMatch(s: string, i: nat, from: string, to: string)
    requires from != ""
    requires OccursAt(s, from, i)
    requires forall j | 0 <= j < i :: !OccursAt(s, from, j)
    ensures StrTr(s, from, to) == s[..i] + to + StrTr(s[i + |from|..], from, to)
  {
    var k := 0;
    assert s[..0] + s[0..] == s;
    while k < i
      invariant 0 <= k <= i
      invariant StrTr(s, from, to) == s[..k] + StrTr(s[k..], from, to)
    {
      StrTrKeepsChar(s, k, from, to);
      k := k + 1;
    }
    StrTrAtMatch(s, i, from, to);
  }

  /** Scanning past a position where the word does not start keeps that character. */
  lemma StrTrKeepsChar(s: string, k: nat, from: string, to: string)
    requires from != "" && k + |from| <= |s|
    requires !OccursAt(s, from, k)
    requires StrTr(s, from, to) == s[..k] + StrTr(s[k..], from, to)
    ensures StrTr(s, from, to) == s[..k + 1] + StrTr(s[k + 1..], from, to)
  {
    var t := s[k..];
    assert t[..|from|] == s[k..k + |from|];
    StrTrPastChar(t, from, to);
    assert t[1..] == s[k + 1..];
    SpliceChar(s, k, StrTr(s[k + 1..], from, to));
  }

  lemma SpliceChar(s: string, k: nat, rest: string)
    requires k < |s|
    ensures s[..k] + ([s[k]] + rest) == s[..k + 1] + rest
  {
    assert s[..k + 1] == s[..k] + [s[k]];
  }

  /** A text that does not start with the word: its first character is kept. */
  lemma StrTrPastChar(t: string, from: string, to: string)
    requires from != "" && |t| >= |from| && !OccursAt(t, from, 0)
    ensures StrTr(t, from, to) == [t[0]] + StrTr(t[1..], from, to)
  {
  }

  /** At the word's position the word is replaced and the scan resumes after it. */
  lemma StrTrAtMatch(s: string, i: nat, from: string, to: string)
    requires from != "" && OccursAt(s, from, i)
    requires StrTr(s, from, to) == s[..i] + StrTr(s[i..], from, to)
    ensures StrTr(s, from, to) == s[..i] + to + StrTr(s[i + |from|..], from, to)
  {
    var t := s[i..];
    assert t[..|from|] == s[i..i + |from|];
    StrTrAtStart(t, from, to);
    assert t[|from|..] == s[i + |from|..];
    ConcatAssociative(s[..i], to, StrTr(s[i + |from|..], from, to));
  }

  /** A text that starts with the word: the word is replaced and the scan resumes after it. */
  lemma StrTrAtStart(t: string, from: string, to: string)
    requires from != "" && |t| >= |from| && t[..|from|] == from
    ensures StrTr(t, from, to) == to + StrTr(t[|from|..], from, to)
  {
  }

  /**
   * If the rewritten text starts with `u`, a string without a 'C', then the
   * text itself started with `u`: every inserted "Complete" starts with 'C'.
   */
  lemma {:induction false} PublishRewritePrefix(t: string, u: string)
    requires 'C' !in u
    requires |u| <= |StrTr(t, "Publish", "Complete")| && StrTr(t, "Publish", "Complete")[..|u|] == u
    ensures |u| <= |t| && t[..|u|] == u
    decreases |t|
  {
    var r := StrTr(t, "Publish", "Complete");
    if |t| >= 7 && u != [] {
      assert r[0] == u[0];
      var r' := StrTr(t[1..], "Publish", "Complete");
      assert r == [t[0]] + r';
      assert r'[..|u| - 1] == r[1..|u|] == u[1..];
      PublishRewritePrefix(t[1..], u[1..]);
      assert t[..|u|] == [t[0]] + t[1..][..|u| - 1];
    }
  }

  /** Text without "Publish" keeps none once "Complete" is put in front of it. */
  lemma CompleteThenNoPublish(rest: string)
    requires !Contains(rest, "Publish")
    ensures !Contains("Complete" + rest, "Publish")
  {
    var r := "Complete" + rest;
    forall i | 0 <= i <= |r| - 7
      ensures !OccursAt(r, "Publish", i)
    {
      if i < 8 {
        assert r[i] == "Complete"[i];
      } else {
        assert !OccursAt(rest, "Publish", i - 8);
        assert r[i..i + 7] == rest[i - 8..i - 1];
      }
    }
  }

  /** After the rewrite no "Publish" is left in the text. */
  lemma {:induction false} NoPublishAfterRewrite(s: string)
    ensures !Contains(StrTr(s, "Publish", "Complete"), "Publish")
    decreases |s|
  {
    var r := StrTr(s, "Publish", "Complete");
    if |s| >= 7 {
      if s[..7] == "Publish" {
        var rest := StrTr(s[7..], "Publish", "Complete");
        NoPublishAfterRewrite(s[7..]);
        assert r == "Complete" + rest;
        CompleteThenNoPublish(rest);
      } else {
        var rest := StrTr(s[1..], "Publish", "Complete");
        NoPublishAfterRewrite(s[1..]);
        forall i | 0 <= i <= |r| - 7
          ensures !OccursAt(r, "Publish", i)
        {
          if i == 0 {
            if OccursAt(r, "Publish", 0) {
              assert r == [s[0]] + rest;
              assert r[1..7] == rest[..6];
              assert rest[..6] == "ublish";
              PublishRewritePrefix(s[1..], "ublish");
              assert false;
            }
          } else {
            assert !OccursAt(rest, "Publish", i - 1);
            assert r[i..i + 7] == rest[i - 1..i + 6];
          }
        }
      }
    }
  }

  /**
   * The `gettext` filter `translate_publish_button`, as written. `screenBase`
   * is `$current_screen->base` and `postType` the global `$post_type`
   * (the empty string when unset).
   */
  function TranslatePublishButton(translated: string, original: string, domain: string,
                                  screenBase: string, postType: string): (r: string)
    ensures domain != Domain ==> r == translated
    ensures domain == Domain && !IsEmpty(postType) && postType != PostType ==> r == translated
    ensures domain == Domain && (IsEmpty(postType) || postType == PostType) ==>
              r == StrTr(original, "Publish", "Complete") && !Contains(r, "Publish")
  {
    NoPublishAfterRewrite(original);
    ReplacementsHaveOnePair();
    if screenBase != "post" && domain != Domain then translated
    else if Context == "backend" && !IsEmpty(postType) && postType != PostType then translated
    else if Domain != domain then translated
    else StrTr(original, Replacements[0].0, Replacements[0].1)
  }

  /** As written, the screen base never changes the result: the first test is subsumed by the last. */
  lemma ScreenBaseIgnored(translated: string, original: string, domain: string,
                          base1: string, base2: string, postType: string)
    ensures TranslatePublishButton(translated, original, domain, base1, postType)
         == TranslatePublishButton(translated, original, domain, base2, postType)
  {
  }

  /**
   * The filter with the first test using `||`, so that it only acts on the
   * post edit screen, as its early return evidently means to.
   */
  function TranslatePublishButtonOnPostScreen(translated: string, original: string, domain: string,
                                              screenBase: string, postType: string): (r: string)
    ensures screenBase != "post" || domain != Domain ==> r == translated
    ensures screenBase == "post" && domain == Domain && !IsEmpty(postType) && postType != PostType ==> r == translated
    ensures screenBase == "post" && domain == Domain && (IsEmpty(postType) || postType == PostType) ==>
              r == StrTr(original, "Publish", "Complete") && !Contains(r, "Publish")
  {
    NoPublishAfterRewrite(original);
    ReplacementsHaveOnePair();
    if screenBase != "post" || domain != Domain then translated
    else if Context == "backend" && !IsEmpty(postType) && postType != PostType then translated
    else StrTr(original, Replacements[0].0, Replacements[0].1)
  }

  /**
   * On a screen other than the post editor (the dashboard, where no post
   * type is set), the filter as written still rewrites core strings.
   */
  lemma RewriteOffPostScreen()
    ensures TranslatePublishButton("Publish", "Publish", "default", "dashboard", "") == "Complete"
    ensures TranslatePublishButtonOnPostScreen("Publish", "Publish", "default", "dashboard", "") == "Publish"
  {
    assert "Publish"[..7] == "Publish";
    assert "Publish"[7..] == "";
  }

  /** A status shown in the editor: the text displayed and the dropdown value selected. */
  datatype Choice = Choice(text: string, value: string)

  /**
   * What `post_status_add_to_dropdown` prints: nothing, or a script that
   * adds the custom status to the dropdown and may select the post's status.
   */
  datatype DropdownScript = NoScript | Script(added: Choice, selected: Option<Choice>)

  function StatusDropdown(postType: string, postStatus: string): (r: DropdownScript)
    ensures postType != PostType <==> r == NoScript
    ensures r.Script? ==> r.added == Choice(StatusLabel, StatusSlug)
    ensures r.Script? ==> (r.selected.Some? <==> postStatus == StatusSlug || postStatus == "publish")
    ensures r.Script? && r.selected.Some? ==> r.selected.value.value == postStatus
    ensures r.Script? && postStatus == StatusSlug ==> r.selected == Some(Choice("Complete", StatusSlug))
    ensures r.Script? && postStatus == "publish" ==> r.selected == Some(Choice("Published", "publish"))
  {
    if PostType != postType then NoScript
    else
      var selected :=
        if postStatus == StatusSlug then Some(Choice(StatusLabel, StatusSlug))
        else if postStatus == "publish" then Some(Choice("Published", "publish"))
        else None;
      Script(Choice(StatusLabel, StatusSlug), selected)
  }
}
