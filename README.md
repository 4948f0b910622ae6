# PassMaster: the list, generator and strength logic, in Dafny

PassMaster is a desktop password tool in two versions, each a single
PySimpleGUI script. `clipboard_mkpass_original_ver1.py` is the first
version. It keeps the saved entries as plain JSON. `pass_master_ver3.py` is
the later version. It encrypts the file and adds a strength meter. In both,
the logic sits inline in the event handlers of one `while True` loop. This
project lifts that logic out and models it:

- **The entry list** (`entries.dfy`, module `Entries`). The module-level
  `password_list` becomes the class `PasswordList` with one `seq<Entry>`
  field. An `Entry` holds the identifier (識別名), password (パスワード),
  memo (メモ) and creation time (作成日時). The list box shows each entry as
  the line `"{作成日時} - {識別名} - {メモ}"` (`Display`). The class has three
  methods:
  - `Filter` is `update_password_list`. It keeps the lines of the entries
    whose lower-cased identifier or memo contains the lower-cased filter.
  - `Delete` is the DELETE handler. It removes the first entry whose line
    equals the selection, through Python's `list.remove`.
  - `Select` is the list box handler. It returns the password of the first
    entry whose line equals the selection.
  Each method is proved against a specification function: `Listing`,
  `AfterDelete` or `FirstMatch`. The lemmas are stated about those functions.
- **The generator** (`generator.dfy`, module `Generator`). The GENERATE
  handler does three things in order:
  - It builds the alphabet from four check boxes, in the order `A-Z`,
    `a-z`, `0-9`, `#!@_-`.
  - It refuses an empty alphabet, and then any length `int()` does not read
    as a positive integer.
  - It draws each character with `secrets.choice`.
- **Python's `int()`** on the length field (`pyint.dfy`, module `PyInt`).
  Surrounding whitespace is ignored, an optional sign may come first,
  single underscores may separate digits, and more than 4300 digits are
  refused.
- **The ver3 additions** (`pass_master_ver3.dfy`, module `PassMasterV3`).
  Its SAVE handler refuses an empty identifier first, then an empty password.
  `evaluate_password_strength` is modelled as `Evaluate`.
- **The ver1 differences** (`clipboard_mkpass_ver1.dfy`, module
  `ClipboardMkPassV1`). Its SAVE handler refuses only an empty identifier,
  so an empty password is stored.
- `wrappers.dfy` holds `Option`/`Result`. `text.dfy` holds ASCII
  lower-casing and the substring test.

The filter, delete, select and generate code is the same in both scripts,
apart from two things. ver3 encrypts the list before writing it after a
delete, where ver1 writes plain JSON; the write is left out here. ver3 also
rates the new password after generating (`PassMasterV3.GeneratedStrength`).
Each piece is modelled once and cited once below, with the ver3 lines. The
ver1 lines are: filter 22-27, generate 66-96, delete 123-142, select 144-150.

Inputs that come from outside the program are parameters:
- the save time, already formatted as `"%Y-%m-%d %H:%M:%S"`;
- the yes/no answer to the delete prompt;
- the list box's selected lines;
- the list loaded at start-up.

Each `secrets.choice` is an arbitrary choice (`:|`) from the alphabet, so
every proved property holds for every outcome of the random draws.

How the scripts behave:
- Version 1 stores an empty password.
- Entries are found by their display line, not by a surrogate id.
  `DisplayCollision` shows that two different entries can share a line.
  Only the first of them can then be selected or deleted.
- Delete reports success even when no entry matched.
- The filter returns display lines, not entries.
- The evaluator's symbol class is the 28-character bracket set of its
  regular expression. It is not the generator's `#!@_-`.
- `"aaaaaaaa"` rates as 普通 (normal): 8 + 2·1 = 10 lies between 8 and 12.

## Model

| member | source | states |
|---|---|---|
| Entries.PasswordList.constructor | pass_master_ver3.py:28-37 | the list starts as the entries loaded at start-up (empty when there is no file) |
| Entries.PasswordList.Filter | pass_master_ver3.py:40-45 | the loop that appends to `display_list` yields exactly `Listing(entries, filter)`; ver1's loop at clipboard_mkpass_original_ver1.py:22-27 is the same |
| Entries.ListingMembers | pass_master_ver3.py:42-44 | a line is listed if and only if some entry matching the filter (case-insensitively, on identifier or memo) displays as that line |
| Entries.ListingConcat | pass_master_ver3.py:42-44 | filtering preserves list order: the listing of `a + b` is the listing of `a` followed by the listing of `b` |
| Entries.ListingLength | pass_master_ver3.py:41-44 | the display list is never longer than the entry list |
| Entries.ListingEmptyFilter | pass_master_ver3.py:43-44 | the empty filter lists every entry's line, in list order |
| Entries.FilterExample | pass_master_ver3.py:43-44 | over entries "Bank" and "Email", the filter "ban" lists only the "Bank" line |
| Entries.FirstMatch | pass_master_ver3.py:172-175 | the index it returns is the first whose display line equals the selection; `None` exactly when no line equals it |
| Entries.RemoveFirstEqual | pass_master_ver3.py:174 | `list.remove` of a present entry shortens the list by one |
| Entries.RemoveFirstEqualAt | pass_master_ver3.py:172-175 | `remove(entry)` on the entry found at index i removes index i and no other, because no earlier entry can equal it |
| Entries.DeleteRemovesFirstMatch | pass_master_ver3.py:172-175 | delete removes only the first entry displayed as the selection and keeps the rest in order; with no match the list is unchanged; the length drops by at most one and no entry is added |
| Entries.ListedLineIsDeletable | pass_master_ver3.py:166-175 | every line the filter shows has a matching entry, so deleting it removes exactly one entry |
| Entries.DisplayCollision | pass_master_ver3.py:188-190 | two distinct entries can show the same line; select and delete then both act on the first |
| Entries.PasswordList.Delete | pass_master_ver3.py:166-185 | with no selection, an error and no change; declined, no change; confirmed, the list becomes `AfterDelete(old, selection[0])`; ver1 at clipboard_mkpass_original_ver1.py:123-142 is the same |
| Entries.PasswordList.Select | pass_master_ver3.py:187-192 | a password is returned if and only if a line is selected and some entry displays as it, and it is the password of the first such entry; ver1 at clipboard_mkpass_original_ver1.py:144-150 is the same |
| Generator.BuildAlphabet | pass_master_ver3.py:105-113 | the `+=` steps build the enabled classes concatenated in the order upper, lower, numbers, symbols |
| Generator.AlphabetMembers | pass_master_ver3.py:105-113 | a character is in the alphabet if and only if its class (A-Z, a-z, 0-9, `#!@_-`) is enabled |
| Generator.AlphabetSize | pass_master_ver3.py:105-115 | the alphabet has 26/26/10/5 characters per enabled class; it is empty if and only if no box is ticked |
| Generator.PasswordLengthShow | pass_master_ver3.py:119-125 | a length typed as the decimal form of n (at most 4300 digits) is accepted as n when n > 0 and refused when n <= 0 |
| Generator.PasswordLengthPadded | pass_master_ver3.py:119-125 | spaces, tabs and line breaks typed around a length do not change whether or how it is accepted |
| Generator.Draw | pass_master_ver3.py:127 | the join of `password_length` draws has exactly that length and only alphabet characters |
| Generator.Generate | pass_master_ver3.py:103-127 | an empty alphabet fails with EmptyAlphabet, checked first; a bad length fails with InvalidLength; otherwise the password has the parsed length and every character in the alphabet; ver1 at clipboard_mkpass_original_ver1.py:66-96 is the same |
| PyInt.ParseShow | pass_master_ver3.py:120 | `int(str(n)) == n` for every integer of at most 4300 digits, the longest `str` itself produces under CPython's default limit |
| PyInt.ParseIgnoresSpace | pass_master_ver3.py:120 | space, tab, newline, vertical tab, form feed and carriage return around the digits do not change what `int()` reads |
| PyInt.ParseDigitLimit | pass_master_ver3.py:120 | more than 4300 digits, leading zeros included, raise ValueError |
| PyInt.ParseBlank | pass_master_ver3.py:120 | empty or all-whitespace text is not a number (ValueError) |
| PassMasterV3.Save | pass_master_ver3.py:135-155 | an empty identifier is refused first, then an empty password, leaving the list unchanged; otherwise exactly one entry with the four fields is appended; entries with an identifier and a password stay so |
| PassMasterV3.DeletePreservesComplete | pass_master_ver3.py:172-175 | deletion keeps every remaining entry with a non-empty identifier and password |
| PassMasterV3.Variety | pass_master_ver3.py:50-53 | the number of classes present is at most 4, and it is 0 if and only if no upper, lower, digit or symbol character occurs |
| PassMasterV3.EvaluateThresholds | pass_master_ver3.py:48-63 | 強い if and only if len + 2·variety > 12; 普通 if and only if 8 < len + 2·variety <= 12; 弱い otherwise |
| PassMasterV3.VarietyGrows | pass_master_ver3.py:50-53 | appending characters never removes a class |
| PassMasterV3.EvaluateMonotone | pass_master_ver3.py:205-208 | typing more characters into the password field never lowers the rating |
| PassMasterV3.SymbolsAreNotAlphanumeric | pass_master_ver3.py:53 | the symbol set of the regular expression contains no letter and no digit, so the four classes are disjoint |
| PassMasterV3.SingleCharVariety | pass_master_ver3.py:50-53 | a one-character password counts one class exactly when the character is A-Z, a-z, 0-9 or in the symbol set |
| PassMasterV3.GeneratorCharsCounted | pass_master_ver3.py:113 | every character the generator can draw, `#!@_-` included, falls in a class the evaluator counts |
| PassMasterV3.GeneratedStrength | pass_master_ver3.py:127-133 | whatever the draws, a generated password of 11 or more characters is rated 強い, and one of 7 or more is never 弱い |
| PassMasterV3.EvaluateExamples | pass_master_ver3.py:56-63 | "aaaaaaaa" is 普通, "Ab1!Ab1!" is 強い, "a" is 弱い |
| ClipboardMkPassV1.Save | clipboard_mkpass_original_ver1.py:98-114 | only an empty identifier is refused, with the list unchanged; an empty password is stored; exactly one entry is appended at the end; entries with an identifier stay so |
| ClipboardMkPassV1.DeletePreservesNamed | clipboard_mkpass_original_ver1.py:130-133 | deletion keeps every remaining entry with a non-empty identifier |

## Left out

- Encryption: the key file (pass_master_ver3.py:10-19), decrypting on load and encrypting on every save and delete (28-37, 157-161, 177-180). These are calls into the `cryptography` library plus file I/O.
- JSON load and dump, and the file writes after save and delete (clipboard_mkpass_original_ver1.py:15-19, 117-118, 136-137). The in-memory list stands for the file's contents.
- Window layout, theme switching, status-line texts, the yes/no popup (its answer is a parameter), the list-box refresh after save and delete, and `pyperclip.copy`.
- `secrets.choice` is an arbitrary choice. Nothing about its uniformity or unpredictability is modelled.
- `datetime.now().strftime(...)` is left out. The formatted time is a parameter.
- Text.Lower: lower-cases only ASCII `A`-`Z`, where Python's `str.lower()` follows full Unicode case mapping.
- PyInt.Parse: accepts only ASCII digits and the six ASCII whitespace characters, where Python's `int()` also accepts Unicode digits and spaces (and, in a string holding any non-ASCII character, also U+001C to U+001F as spaces). The digit limit is fixed at CPython's default of 4300; `sys.set_int_max_str_digits` and `PYTHONINTMAXSTRDIGITS` can change it, and Python releases before the limit was introduced have none.
- PassMasterV3.Evaluate: uses exact reals for `len/8 + variety/4`. Python's floats agree with them for every password shorter than 2^50 characters.
- Load-time entries are records with the four fields. A JSON file with missing or extra keys is not modelled.
- The color strings returned next to the labels are modelled (`Strength.Colour`), but there is no row for them: they only feed the UI.
