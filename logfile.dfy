/**
 * The output file `logs.json` as a character buffer: begun with `[`,
 * extended by each record's JSON text followed by a comma, and finished by
 * cutting the last character and writing `]`.
 */
module LogFile {

  /** Each item followed by a comma: what the appends leave in the file. */
  function Entries(items: seq<string>): string {
    if items == [] then "" else Entries(items[..|items| - 1]) + items[|items| - 1] + ","
  }

  /** The items separated by commas. */
  function Join(items: seq<string>): string {
    if items == [] then ""
    else if |items| == 1 then items[0]
    else Join(items[..|items| - 1]) + "," + items[|items| - 1]
  }

  /** The JSON array whose elements have the given texts, in order. */
  function JsonArray(items: seq<string>): string {
    "[" + Join(items) + "]"
  }

  /**
   * Finalisation as written: `seek(-1, SEEK_END)` and `truncate()` drop the
   * last character, then `]` is appended. On an empty file the seek fails,
   * the handler logs it and the content is left as it was.
   */
  function Finalized(buf: string): (r: string)
    ensures |r| == |buf|
    ensures |buf| > 0 ==> r[..|r| - 1] == buf[..|buf| - 1] && r[|r| - 1] == ']'
  {
    if |buf| == 0 then buf else buf[..|buf| - 1] + "]"
  }

  /** Finalisation as evidently intended: only a trailing comma is removed before `]`. */
  function Sealed(buf: string): (r: string)
    ensures |r| > 0 && r[|r| - 1] == ']'
    ensures |buf| > 0 && buf[|buf| - 1] == ',' ==> r[..|r| - 1] == buf[..|buf| - 1]
    ensures (|buf| == 0 || buf[|buf| - 1] != ',') ==> r[..|r| - 1] == buf
  {
    if |buf| > 0 && buf[|buf| - 1] == ',' then buf[..|buf| - 1] + "]" else buf + "]"
  }

  /** Appending a batch is appending its two halves in turn. */
  lemma {:induction false} EntriesAppend(a: seq<string>, b: seq<string>)
    ensures Entries(a + b) == Entries(a) + Entries(b)
    decreases |b|
  {
    if b != [] {
      var b' := b[..|b| - 1];
      assert (a + b)[..|a + b| - 1] == a + b';
      EntriesAppend(a, b');
    } else {
      assert a + b == a;
    }
  }

  /** A non-empty batch of entries is the joined items plus one trailing comma. */
  lemma {:induction false} EntriesAreJoinPlusComma(items: seq<string>)
    requires items != []
    ensures Entries(items) == Join(items) + ","
    decreases |items|
  {
    if |items| > 1 {
      EntriesAreJoinPlusComma(items[..|items| - 1]);
    } else {
      assert items[..0] == [];
    }
  }

  /** The unfinished file ends with a comma exactly when something was appended. */
  lemma EntriesEndInComma(items: seq<string>)
    ensures |Entries(items)| > 0 <==> items != []
    ensures items != [] ==> Entries(items)[|Entries(items)| - 1] == ','
  {
  }

  /** With at least one record, finalisation as written yields the JSON array of the records. */
  lemma FinalizedIsArray(items: seq<string>)
    requires items != []
    ensures Finalized("[" + Entries(items)) == JsonArray(items)
  {
    EntriesAreJoinPlusComma(items);
    var buf := "[" + Join(items) + ",";
    assert buf[..|buf| - 1] == "[" + Join(items);
  }

  /** With no record, finalisation as written cuts the opening bracket: the file is `]`, which is no array. */
  lemma FinalizedEmptyLosesBracket()
    ensures Finalized("[" + Entries([])) == "]"
    ensures forall items :: Finalized("[" + Entries([])) != JsonArray(items)
  {
    forall items ensures "]" != JsonArray(items) {
      assert JsonArray(items)[0] == '[';
    }
  }

  /** The corrected finalisation yields the records' JSON array in every case, `[]` included. */
  lemma SealedIsArray(items: seq<string>)
    ensures Sealed("[" + Entries(items)) == JsonArray(items)
  {
    if items != [] {
      EntriesAreJoinPlusComma(items);
      var buf := "[" + Join(items) + ",";
      assert buf[..|buf| - 1] == "[" + Join(items);
    }
  }

  /** The file the export writes to. */
  class OutputFile {
    var content: string

    /** The file as it stands before the run; it may hold anything, e.g. a previous export. */
    constructor (existing: string)
      ensures content == existing
    {
      content := existing;
    }

    /** `open('logs.json', 'w')` truncates, then `[` is written. */
    method Begin()
      modifies this
      ensures content == "["
    {
      content := "";
      content := content + "[";
    }

    /** `open('logs.json', 'a')` and write each record's text and a comma, in order. */
    method Append(items: seq<string>)
      modifies this
      ensures content == old(content) + Entries(items)
    {
      for i := 0 to |items|
        invariant content == old(content) + Entries(items[..i])
      {
        assert items[..i + 1][..i] == items[..i];
        content := content + items[i] + ",";
      }
      assert items[..|items|] == items;
    }

    /** Truncate the last character, then append `]`; a seek on an empty file fails and changes nothing. */
    method Finalize()
      modifies this
      ensures content == Finalized(old(content))
    {
      if |content| > 0 {
        content := content[..|content| - 1];
        content := content + "]";
      }
    }
  }
}
