/**
 * What clipboard_mkpass_original_ver1.py does differently from the later
 * script: its SAVE handler checks only the identifier, so an entry with an
 * empty password is stored. It has no strength evaluator.
 */
module ClipboardMkPassV1 {
  import opened Entries

  /** The SAVE handler's outcomes: stored, or its one status-line error. */
  datatype SaveStatus = Saved | MissingIdentifier

  /** What this script's SAVE handler lets into the list: an identifier, the password may be empty. */
  predicate Named(e: Entry) {
    e.identifier != ""
  }

  /**
   * The SAVE handler: an empty identifier leaves the list untouched; any
   * other input, an empty password included, appends one entry stamped with
   * `saveTime`. A list of named entries stays named.
   */
  method Save(list: PasswordList, identifier: string, password: string, memo: string, saveTime: string)
    returns (status: SaveStatus)
    modifies list
    ensures status == if identifier == "" then MissingIdentifier else Saved
    ensures list.entries == if status == Saved then old(list.entries) + [Entry(identifier, password, memo, saveTime)]
                            else old(list.entries)
    ensures (forall e :: e in old(list.entries) ==> Named(e)) ==> forall e :: e in list.entries ==> Named(e)
  {
    if identifier == "" {
      return MissingIdentifier;
    }
    var passwordEntry := Entry(identifier, password, memo, saveTime);
    list.entries := list.entries + [passwordEntry];
    status := Saved;
  }

  /** Deleting never brings in an entry, so a list of named entries stays named. */
  lemma DeletePreservesNamed(es: seq<Entry>, selected: string)
    requires forall e :: e in es ==> Named(e)
    ensures forall e :: e in AfterDelete(es, selected) ==> Named(e)
  {
    DeleteRemovesFirstMatch(es, selected);
    forall e | e in AfterDelete(es, selected)
      ensures Named(e)
    {
      assert e in multiset(AfterDelete(es, selected));
    }
  }
}
