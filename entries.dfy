/**
 * The module-level `password_list` that both scripts keep, and the three
 * things their event handlers do with it besides saving: build the filtered
 * display list, delete the entry a list-box line stands for, and look up the
 * password a list-box line stands for. Both scripts contain this code, apart
 * from how the list is written to file after a delete (left out here);
 * saving differs between them and lives in their own modules.
 */
module Entries {
  import opened Wrappers
  import opened Text

  /** One stored record: the dictionary with keys 識別名, パスワード, メモ and 作成日時. */
  datatype Entry = Entry(identifier: string, password: string, memo: string, createdAt: string)

  /** The line the list box shows for an entry: "{作成日時} - {識別名} - {メモ}". */
  function Display(e: Entry): string {
    e.createdAt + " - " + e.identifier + " - " + e.memo
  }

  /** The filter test: the lowered filter occurs in the lowered identifier or in the lowered memo. */
  predicate Matches(e: Entry, filter: string) {
    Contains(Lower(e.identifier), Lower(filter)) || Contains(Lower(e.memo), Lower(filter))
  }

  /** The display lines of the entries that match `filter`, in list order. */
  function Listing(es: seq<Entry>, filter: string): seq<string> {
    if es == [] then []
    else
      var last := es[|es| - 1];
      Listing(es[..|es| - 1], filter) + (if Matches(last, filter) then [Display(last)] else [])
  }

  /** The display line of every entry, in list order. */
  function Displays(es: seq<Entry>): (r: seq<string>)
    ensures |r| == |es| && forall i :: 0 <= i < |es| ==> r[i] == Display(es[i])
  {
    seq(|es|, i requires 0 <= i < |es| => Display(es[i]))
  }

  /** Filtering keeps list order: the listing of a concatenation is the concatenation of the listings. */
  lemma {:induction false} ListingConcat(a: seq<Entry>, b: seq<Entry>, filter: string)
    ensures Listing(a + b, filter) == Listing(a, filter) + Listing(b, filter)
  {
    if b == [] {
      assert a + b == a;
    } else {
      var b' := b[..|b| - 1];
      assert (a + b)[..|a + b| - 1] == a + b';
      assert (a + b)[|a + b| - 1] == b[|b| - 1];
      ListingConcat(a, b', filter);
    }
  }

  /** A line is listed exactly when some entry matching the filter displays as that line. */
  lemma {:induction false} ListingMembers(es: seq<Entry>, filter: string, line: string)
    ensures line in Listing(es, filter) <==>
            exists i :: 0 <= i < |es| && Matches(es[i], filter) && Display(es[i]) == line
  {
    if es != [] {
      var init := es[..|es| - 1];
      ListingMembers(init, filter, line);
      if exists i :: 0 <= i < |es| && Matches(es[i], filter) && Display(es[i]) == line {
        var i :| 0 <= i < |es| && Matches(es[i], filter) && Display(es[i]) == line;
        if i < |es| - 1 {
          assert init[i] == es[i];
        }
      }
      if exists i :: 0 <= i < |init| && Matches(init[i], filter) && Display(init[i]) == line {
        var i :| 0 <= i < |init| && Matches(init[i], filter) && Display(init[i]) == line;
        assert es[i] == init[i];
      }
    }
  }

  /** Never more lines than entries. */
  lemma {:induction false} ListingLength(es: seq<Entry>, filter: string)
    ensures |Listing(es, filter)| <= |es|
  {
    if es != [] {
      ListingLength(es[..|es| - 1], filter);
    }
  }

  /** An empty filter lists every entry, in list order. */
  lemma {:induction false} ListingEmptyFilter(es: seq<Entry>)
    ensures Listing(es, "") == Displays(es)
  {
    if es != [] {
      var init := es[..|es| - 1];
      ListingEmptyFilter(init);
      assert Lower("") == "";
      EmptyContained(Lower(es[|es| - 1].identifier));
      assert Displays(es) == Displays(init) + [Display(es[|es| - 1])];
    }
  }

  /**
   * The position of the first entry whose display line is `selected`, as the
   * `for entry in password_list: if ... == selected_text: ... break` loops find it.
   */
  function FirstMatch(es: seq<Entry>, selected: string): (r: Option<nat>)
    ensures r.Some? ==> r.value < |es| && Display(es[r.value]) == selected
    ensures r.Some? ==> forall j :: 0 <= j < r.value ==> Display(es[j]) != selected
    ensures r.None? <==> forall j :: 0 <= j < |es| ==> Display(es[j]) != selected
  {
    if es == [] then None
    else if Display(es[0]) == selected then Some(0)
    else
      match FirstMatch(es[1..], selected)
      case None => None
      case Some(i) => Some(i + 1)
  }

  /** Python's `list.remove(e)`: drop the first element equal to `e` (the caller guarantees there is one). */
  function RemoveFirstEqual(es: seq<Entry>, e: Entry): (r: seq<Entry>)
    requires e in es
    ensures |r| == |es| - 1
  {
    if es[0] == e then es[1..] else [es[0]] + RemoveFirstEqual(es[1..], e)
  }

  /**
   * The delete loop hands `remove` the entry it found at position `i`; no earlier
   * entry can equal it (its display line would have matched first), so
   * `remove` takes out exactly position `i`.
   */
  lemma {:induction false} RemoveFirstEqualAt(es: seq<Entry>, i: nat)
    requires i < |es|
    requires forall j :: 0 <= j < i ==> es[j] != es[i]
    ensures RemoveFirstEqual(es, es[i]) == es[..i] + es[i + 1..]
  {
    if i > 0 {
      assert es[1..][i - 1] == es[i];
      RemoveFirstEqualAt(es[1..], i - 1);
      assert es[1..][..i - 1] + es[1..][i..] == es[1..i] + es[i + 1..];
    }
  }

  /** The list after deleting the line `selected`: the first entry that displays as it is gone. */
  function AfterDelete(es: seq<Entry>, selected: string): seq<Entry> {
    match FirstMatch(es, selected)
    case None => es
    case Some(i) => es[..i] + es[i + 1..]
  }

  /**
   * Deleting removes at most one entry, the first one displayed as `selected`,
   * keeps the others in order, and changes nothing when no entry matches.
   */
  lemma DeleteRemovesFirstMatch(es: seq<Entry>, selected: string)
    ensures (forall j :: 0 <= j < |es| ==> Display(es[j]) != selected) ==> AfterDelete(es, selected) == es
    ensures (exists j :: 0 <= j < |es| && Display(es[j]) == selected) ==>
              exists i :: 0 <= i < |es| && Display(es[i]) == selected &&
                (forall j :: 0 <= j < i ==> Display(es[j]) != selected) &&
                AfterDelete(es, selected) == es[..i] + es[i + 1..]
    ensures |es| - 1 <= |AfterDelete(es, selected)| <= |es|
    ensures multiset(AfterDelete(es, selected)) <= multiset(es)
  {
    var r := AfterDelete(es, selected);
    match FirstMatch(es, selected)
    case None =>
    case Some(i) =>
      assert r == es[..i] + es[i + 1..];
      assert es == es[..i] + [es[i]] + es[i + 1..];
      assert multiset(es) == multiset(r) + multiset{es[i]};
  }

  /** Every line the listing shows stands for an entry, so deleting it shrinks the list by exactly one. */
  lemma ListedLineIsDeletable(es: seq<Entry>, filter: string, line: string)
    requires line in Listing(es, filter)
    ensures FirstMatch(es, line).Some?
    ensures |AfterDelete(es, line)| == |es| - 1
  {
    ListingMembers(es, filter, line);
  }

  /**
   * Two different entries can display as the same line (an identifier or memo
   * holding " - " shifts the separators), and then the second one can be neither
   * selected nor deleted through its line: both handlers act on the first.
   */
  lemma DisplayCollision()
    ensures var first := Entry("a - b", "pw1", "c", "2024-01-01 00:00:00");
            var second := Entry("a", "pw2", "b - c", "2024-01-01 00:00:00");
            first != second && Display(first) == Display(second) &&
            FirstMatch([first, second], Display(second)) == Some(0) &&
            AfterDelete([first, second], Display(second)) == [second]
  {
    var first := Entry("a - b", "pw1", "c", "2024-01-01 00:00:00");
    var second := Entry("a", "pw2", "b - c", "2024-01-01 00:00:00");
    assert Display(first) == Display(second);
  }

  /** Filtering "ban" over the entries "Bank" and "Email" lists only the "Bank" line. */
  lemma FilterExample()
    ensures var bank := Entry("Bank", "x1", "", "2024-01-01 09:00:00");
            var email := Entry("Email", "x2", "", "2024-01-01 09:00:01");
            Listing([bank, email], "ban") == [Display(bank)]
  {
    var bank := Entry("Bank", "x1", "", "2024-01-01 09:00:00");
    var email := Entry("Email", "x2", "", "2024-01-01 09:00:01");
    assert Lower("ban") == "ban";
    assert Lower("Bank") == "bank";
    assert Lower("Email") == "email";
    assert Lower("") == "";
    assert OccursAt("bank", "ban", 0);
    assert !Contains("email", "ban") by {
      forall k | 0 <= k <= 2
        ensures !OccursAt("email", "ban", k)
      {
        assert "email"[k..k + 3][0] == "email"[k] != 'b';
      }
    }
    assert Matches(bank, "ban");
    assert !Matches(email, "ban");
    assert [bank][..0] == [];
    assert Listing([bank], "ban") == [Display(bank)];
    assert [bank, email][..1] == [bank];
  }

  /** What a delete request ended as: no line selected (an error), declined at the prompt, or done. */
  datatype DeleteStatus = NothingSelected | Declined | Done

  /** The `password_list` both scripts mutate from their event handlers. */
  class PasswordList {
    var entries: seq<Entry>

    /** The list as loaded at start-up (an empty list when there is no file). */
    constructor (loaded: seq<Entry>)
      ensures entries == loaded
    {
      entries := loaded;
    }

    /** `update_password_list(filter_text)`: the display list handed to the list box. */
    method Filter(filterText: string) returns (display: seq<string>)
      ensures display == Listing(entries, filterText)
    {
      display := [];
      var i := 0;
      while i < |entries|
        invariant 0 <= i <= |entries|
        invariant display == Listing(entries[..i], filterText)
      {
        var entry := entries[i];
        assert entries[..i + 1][..i] == entries[..i];
        if Matches(entry, filterText) {
          display := display + [Display(entry)];
        }
        i := i + 1;
      }
      assert entries[..i] == entries;
    }

    /**
     * The DELETE handler: with a selected line and a confirmed prompt, remove
     * the first entry that displays as that line; otherwise leave the list alone.
     */
    method Delete(selection: seq<string>, confirmed: bool) returns (status: DeleteStatus)
      modifies this
      ensures status == if selection == [] then NothingSelected else if confirmed then Done else Declined
      ensures entries == if status == Done then AfterDelete(old(entries), selection[0]) else old(entries)
    {
      if selection == [] {
        return NothingSelected;
      }
      if !confirmed {
        return Declined;
      }
      var selectedText := selection[0];
      var i := 0;
      while i < |entries|
        invariant 0 <= i <= |entries|
        invariant entries == old(entries)
        invariant forall j :: 0 <= j < i ==> Display(entries[j]) != selectedText
      {
        var entry := entries[i];
        if Display(entry) == selectedText {
          RemoveFirstEqualAt(entries, i);
          entries := RemoveFirstEqual(entries, entry);
          break;
        }
        i := i + 1;
      }
      status := Done;
    }

    /**
     * The PASSWORD_LIST handler: the password of the first entry that displays
     * as the selected line; nothing when no line is selected or none matches.
     */
    method Select(selection: seq<string>) returns (password: Option<string>)
      ensures password.Some? <==>
              selection != [] && exists j :: 0 <= j < |entries| && Display(entries[j]) == selection[0]
      ensures password.Some? ==> password.value == entries[FirstMatch(entries, selection[0]).value].password
    {
      password := None;
      if selection == [] {
        return;
      }
      var selectedText := selection[0];
      var i := 0;
      while i < |entries|
        invariant 0 <= i <= |entries|
        invariant forall j :: 0 <= j < i ==> Display(entries[j]) != selectedText
      {
        if Display(entries[i]) == selectedText {
          password := Some(entries[i].password);
          return;
        }
        i := i + 1;
      }
    }
  }
}
