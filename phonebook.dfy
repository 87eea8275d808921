/**
 * The phone book: a store of `{name, email}` records keyed by ten-digit
 * phone numbers, with adding, updating, substring search, rendering of
 * the matches as sorted lines, counting removal and import from
 * semicolon-separated rows.
 *
 * The source keeps the book in a module-level object; here it is the
 * `entries` field of a `Book`, an association list in insertion order
 * (the order the source exposes is never observable: `find` sorts its
 * lines and `findAndRemove` only counts).
 */
module PhoneBook {
  import opened Wrappers
  import opened Text
  import opened Sorting

  /** One entry: the key and the stored `{name, email}`. */
  datatype Contact = Contact(phone: string, name: string, email: string)

  predicate IsDigit(c: char)
  {
    '0' <= c <= '9'
  }

  /** `/^\d{10}$/.test(phone)`: exactly ten decimal digits. */
  predicate IsPhone(phone: string)
  {
    |phone| == 10 && forall i :: 0 <= i < |phone| ==> IsDigit(phone[i])
  }

  /** The test of `CheckAndUpdate`: a non-empty string name and a ten-digit phone. */
  predicate Acceptable(phone: string, name: Value)
  {
    name.Str? && name.s != "" && IsPhone(phone)
  }

  // ---------------------------------------------------------------------
  // The book as an association list

  /** `phoneBook[phone]`: the entry stored under `phone`, if any. */
  function Get(book: seq<Contact>, phone: string): (r: Option<Contact>)
    ensures r.Some? ==> r.value in book && r.value.phone == phone
    ensures r.None? <==> forall k :: 0 <= k < |book| ==> book[k].phone != phone
  {
    if |book| == 0 then None
    else if book[0].phone == phone then Some(book[0])
    else Get(book[1..], phone)
  }

  /** `phone in phoneBook`. */
  predicate Has(book: seq<Contact>, phone: string)
  {
    Get(book, phone).Some?
  }

  /**
   * `phoneBook[phone] = {name, email}`: the entry of that phone is
   * overwritten where it stands, or a new one is appended.
   */
  function Put(book: seq<Contact>, c: Contact): (r: seq<Contact>)
    ensures Get(r, c.phone) == Some(c)
    ensures forall p :: p != c.phone ==> Get(r, p) == Get(book, p)
    ensures forall x :: x in r ==> x in book || x == c
    ensures |r| == if Has(book, c.phone) then |book| else |book| + 1
  {
    if |book| == 0 then [c]
    else if book[0].phone == c.phone then [c] + book[1..]
    else
      var rest := Put(book[1..], c);
      assert ([book[0]] + rest)[1..] == rest;
      [book[0]] + rest
  }

  /**
   * Where `Put` stores the entry: in place of the entry with the same
   * phone, at index `i`, or appended when the phone is new.
   */
  lemma {:induction false} PutShape(book: seq<Contact>, c: Contact) returns (i: nat)
    ensures Has(book, c.phone) ==> i < |book| && book[i].phone == c.phone && Put(book, c) == book[i := c]
    ensures !Has(book, c.phone) ==> Put(book, c) == book + [c]
  {
    i := 0;
    if |book| == 0 {
      assert Put(book, c) == [c] == book + [c];
    } else if book[0].phone == c.phone {
      assert Has(book, c.phone);
      assert Put(book, c) == [c] + book[1..] == book[0 := c];
    } else {
      var tail := book[1..];
      var rest := Put(tail, c);
      assert Has(book, c.phone) == Has(tail, c.phone) by {
        assert Get(book, c.phone) == Get(tail, c.phone);
      }
      assert Put(book, c) == [book[0]] + rest;
      assert book == [book[0]] + tail;
      var j := PutShape(tail, c);
      if Has(tail, c.phone) {
        ConsUpdate(book[0], tail, j, c);
        i := j + 1;
      } else {
        ConsAppend(book[0], tail, c);
      }
    }
  }

  /** Updating the tail of a list is updating the list one index further on. */
  lemma ConsUpdate(head: Contact, tail: seq<Contact>, j: nat, c: Contact)
    requires j < |tail|
    ensures [head] + tail[j := c] == ([head] + tail)[j + 1 := c]
  {
  }

  /** Appending to the tail of a list is appending to the list. */
  lemma ConsAppend(head: Contact, tail: seq<Contact>, c: Contact)
    ensures [head] + (tail + [c]) == ([head] + tail) + [c]
  {
  }

  /** A phone not yet in the book is appended at the end. */
  lemma PutNew(book: seq<Contact>, c: Contact)
    requires !Has(book, c.phone)
    ensures Put(book, c) == book + [c]
  {
    var _ := PutShape(book, c);
  }

  /** What the book holds at all times: ten-digit keys, non-empty names, no key twice. */
  predicate WellFormed(book: seq<Contact>)
  {
    (forall k :: 0 <= k < |book| ==> IsPhone(book[k].phone) && book[k].name != "") &&
    (forall i, j :: 0 <= i < j < |book| ==> book[i].phone != book[j].phone)
  }

  /** Storing a checked entry keeps the book well formed. */
  lemma PutWellFormed(book: seq<Contact>, c: Contact)
    requires WellFormed(book) && IsPhone(c.phone) && c.name != ""
    ensures WellFormed(Put(book, c))
  {
    var at := PutShape(book, c);
    if Has(book, c.phone) {
      UpdateWellFormed(book, at, c);
    } else {
      AppendWellFormed(book, c);
    }
  }

  /** Overwriting an entry by one with the same checked phone keeps the book well formed. */
  lemma UpdateWellFormed(book: seq<Contact>, at: nat, c: Contact)
    requires WellFormed(book) && IsPhone(c.phone) && c.name != ""
    requires at < |book| && book[at].phone == c.phone
    ensures WellFormed(book[at := c])
  {
    var r := book[at := c];
    assert forall k :: 0 <= k < |r| ==> r[k].phone == book[k].phone;
  }

  /** Appending a checked entry with a new phone keeps the book well formed. */
  lemma AppendWellFormed(book: seq<Contact>, c: Contact)
    requires WellFormed(book) && IsPhone(c.phone) && c.name != ""
    requires forall k :: 0 <= k < |book| ==> book[k].phone != c.phone
    ensures WellFormed(book + [c])
  {
  }

  // ---------------------------------------------------------------------
  // CheckAndUpdate, add, update

  /** The success flag of an operation and the book after it. */
  datatype Outcome = Outcome(ok: bool, book: seq<Contact>)

  /** `CheckAndUpdate`: stores `{name, email}` under `phone` when both pass the check. */
  function Store(book: seq<Contact>, phone: string, name: Value, email: string): (r: Outcome)
    ensures r.ok <==> Acceptable(phone, name)
    ensures r.ok ==> Get(r.book, phone) == Some(Contact(phone, name.s, email))
    ensures r.ok ==> forall p :: p != phone ==> Get(r.book, p) == Get(book, p)
    ensures !r.ok ==> r.book == book
  {
    if Acceptable(phone, name) then Outcome(true, Put(book, Contact(phone, name.s, email)))
    else Outcome(false, book)
  }

  /** `add`: refuses a phone already present, otherwise stores a checked entry. */
  function AddOutcome(book: seq<Contact>, phone: string, name: Value, email: string): (r: Outcome)
    ensures r.ok <==> !Has(book, phone) && Acceptable(phone, name)
    ensures r.ok ==> r.book == book + [Contact(phone, name.s, email)]
    ensures !r.ok ==> r.book == book
  {
    if Has(book, phone) then Outcome(false, book)
    else if !Acceptable(phone, name) then Store(book, phone, name, email)
    else
      PutNew(book, Contact(phone, name.s, email));
      Store(book, phone, name, email)
  }

  /** `update`: refuses an absent phone, otherwise overwrites name and email of a checked entry. */
  function UpdateOutcome(book: seq<Contact>, phone: string, name: Value, email: string): (r: Outcome)
    ensures r.ok <==> Has(book, phone) && Acceptable(phone, name)
    ensures r.ok ==> Get(r.book, phone) == Some(Contact(phone, name.s, email)) && |r.book| == |book|
    ensures r.ok ==> forall p :: p != phone ==> Get(r.book, p) == Get(book, p)
    ensures !r.ok ==> r.book == book
  {
    if !Has(book, phone) then Outcome(false, book) else Store(book, phone, name, email)
  }

  /** Adding or updating keeps the book well formed. */
  lemma StoreWellFormed(book: seq<Contact>, phone: string, name: Value, email: string)
    requires WellFormed(book)
    ensures WellFormed(AddOutcome(book, phone, name, email).book)
    ensures WellFormed(UpdateOutcome(book, phone, name, email).book)
  {
    if Acceptable(phone, name) {
      PutWellFormed(book, Contact(phone, name.s, email));
    }
  }

  // ---------------------------------------------------------------------
  // getPhones

  /** The test of `getPhones` for one entry and a non-empty query. */
  predicate Matches(c: Contact, query: string)
  {
    query == "*" || Contains(c.name, query) || (c.email != "" && Contains(c.email, query)) ||
    Contains(c.phone, query)
  }

  /** The entries of `s` that match `query`, in order. */
  function Select(s: seq<Contact>, query: string): (r: seq<Contact>)
    ensures |r| <= |s|
    ensures forall c :: c in r <==> c in s && Matches(c, query)
    ensures PhonesOfTen(s) ==> PhonesOfTen(r)
  {
    if |s| == 0 then []
    else
      var last := s[|s| - 1];
      assert s == s[..|s| - 1] + [last];
      Select(s[..|s| - 1], query) + (if Matches(last, query) then [last] else [])
  }

  /** Every phone of `s` has the ten characters `find` slices. */
  predicate PhonesOfTen(s: seq<Contact>)
  {
    forall k :: 0 <= k < |s| ==> |s[k].phone| == 10
  }

  /** The entries `getPhones` returns: none for an empty or non-string query. */
  function Matching(book: seq<Contact>, query: Value): (r: seq<Contact>)
    ensures PhonesOfTen(book) ==> PhonesOfTen(r)
  {
    if query.Str? && query.s != "" then Select(book, query.s) else []
  }

  /** When every entry matches, the selection is the whole list. */
  lemma {:induction false} SelectAll(s: seq<Contact>, query: string)
    requires forall k :: 0 <= k < |s| ==> Matches(s[k], query)
    ensures Select(s, query) == s
  {
    if |s| > 0 {
      var init, last := s[..|s| - 1], s[|s| - 1];
      assert s == init + [last];
      SelectAll(init, query);
      SelectSnoc(init, last, query);
    }
  }

  /** Selecting from a list with one more entry selects from the list, then tests the entry. */
  lemma SelectSnoc(init: seq<Contact>, last: Contact, query: string)
    ensures Select(init + [last], query) == Select(init, query) + (if Matches(last, query) then [last] else [])
  {
    var s := init + [last];
    assert s[..|s| - 1] == init && s[|s| - 1] == last;
  }

  /** The query `*` selects every entry, in order. */
  lemma MatchingStar(book: seq<Contact>)
    ensures Matching(book, Str("*")) == book
  {
    SelectAll(book, "*");
  }

  /**
   * An entry is returned exactly when it is in the book and the query is
   * `*` or a substring of its name, of its non-empty email or of its phone.
   */
  lemma MatchingMeans(book: seq<Contact>, query: string, c: Contact)
    requires query != ""
    ensures c in Matching(book, Str(query)) <==>
      c in book &&
      (query == "*" || (exists i :: OccursAt(c.name, query, i)) ||
       (c.email != "" && exists i :: OccursAt(c.email, query, i)) ||
       (exists i :: OccursAt(c.phone, query, i)))
  {
    ContainsAt(c.name, query);
    ContainsAt(c.email, query);
    ContainsAt(c.phone, query);
  }

  // ---------------------------------------------------------------------
  // find

  /** `+7 (ddd) ddd-dd-dd`. */
  function Formatted(phone: string): string
    requires |phone| == 10
  {
    "+7 (" + phone[0..3] + ") " + phone[3..6] + "-" + phone[6..8] + "-" + phone[8..10]
  }

  /** The digits back from a formatted phone. */
  function Unformatted(text: string): string
    requires |text| == 18
  {
    text[4..7] + text[9..12] + text[13..15] + text[16..18]
  }

  /** Formatting loses no digit: reading the digits back gives the phone. */
  lemma FormattedReadsBack(phone: string)
    requires |phone| == 10
    ensures |Formatted(phone)| == 18 && Unformatted(Formatted(phone)) == phone
  {
    var f := Formatted(phone);
    assert f[4..7] == phone[0..3] && f[9..12] == phone[3..6];
    assert f[13..15] == phone[6..8] && f[16..18] == phone[8..10];
    assert phone == phone[0..3] + phone[3..6] + phone[6..8] + phone[8..10];
  }

  /** The line `find` renders for one entry: the email is left out when empty. */
  function Render(c: Contact): (line: string)
    requires |c.phone| == 10
  {
    if c.email != "" then c.name + ", " + Formatted(c.phone) + ", " + c.email
    else c.name + ", " + Formatted(c.phone)
  }

  /** A rendered line starts with the name and the formatted phone, followed by the email if any. */
  lemma RenderShape(c: Contact)
    requires |c.phone| == 10
    ensures Render(c)[..|c.name| + 20] == c.name + ", " + Formatted(c.phone)
    ensures c.email == "" <==> |Render(c)| == |c.name| + 20
    ensures c.email != "" ==> Render(c)[|c.name| + 20..] == ", " + c.email
  {
  }

  /** The key of the sort: a line is ordered by itself. */
  function Itself(line: string): string
  {
    line
  }

  /** The lines of the entries, in their order. */
  function RenderAll(s: seq<Contact>): (lines: seq<string>)
    requires PhonesOfTen(s)
    ensures |lines| == |s|
    ensures forall k :: 0 <= k < |s| ==> lines[k] == Render(s[k])
  {
    seq(|s|, k requires 0 <= k < |s| => Render(s[k]))
  }

  /** The result of `find`: the lines of the matches, sorted. */
  function FindLines(book: seq<Contact>, query: Value): (lines: seq<string>)
    requires WellFormed(book)
    ensures SortedBy(lines, Itself)
    ensures multiset(lines) == multiset(RenderAll(Matching(book, query)))
  {
    SortBy(RenderAll(Matching(book, query)), Itself)
  }

  // ---------------------------------------------------------------------
  // findAndRemove

  /** The second test of `findAndRemove`, with the query taken literally. */
  predicate LiterallyMatches(c: Contact, query: string)
  {
    Contains(c.phone, query) || Contains(c.name, query) || (c.email != "" && Contains(c.email, query))
  }

  /** How many entries of `s` contain `query` literally. */
  function CountLiteral(s: seq<Contact>, query: string): (n: nat)
    ensures n <= |s|
  {
    if |s| == 0 then 0
    else CountLiteral(s[..|s| - 1], query) + (if LiterallyMatches(s[|s| - 1], query) then 1 else 0)
  }

  /** The count `findAndRemove` returns. */
  function RemovalCount(book: seq<Contact>, query: Value): nat
  {
    if query.Str? then CountLiteral(Matching(book, query), query.s) else 0
  }

  /** Every entry of `s` contains the query literally: all are counted. */
  lemma {:induction false} CountLiteralAll(s: seq<Contact>, query: string)
    requires forall k :: 0 <= k < |s| ==> LiterallyMatches(s[k], query)
    ensures CountLiteral(s, query) == |s|
  {
    if |s| > 0 {
      CountLiteralAll(s[..|s| - 1], query);
    }
  }

  /** For any query but `*`, every match found is counted. */
  lemma RemovalCountsMatches(book: seq<Contact>, query: string)
    requires query != "*"
    ensures RemovalCount(book, Str(query)) == |Matching(book, Str(query))|
  {
    var matches := Matching(book, Str(query));
    forall k | 0 <= k < |matches| ensures LiterallyMatches(matches[k], query) {
      assert matches[k] in matches;
    }
    CountLiteralAll(matches, query);
  }

  /** For `*` only the entries whose name or email holds a `*` are counted. */
  lemma {:induction false} RemovalCountStar(book: seq<Contact>)
    requires WellFormed(book)
    ensures RemovalCount(book, Str("*")) == CountLiteral(book, "*")
    ensures forall k :: 0 <= k < |book| ==>
      (LiterallyMatches(book[k], "*") <==> Contains(book[k].name, "*") || (book[k].email != "" && Contains(book[k].email, "*")))
  {
    MatchingStar(book);
    forall k | 0 <= k < |book| ensures !Contains(book[k].phone, "*") {
      NotContains(book[k].phone, "*");
    }
  }

  // ---------------------------------------------------------------------
  // importFromDsv

  /** `dsv.split(/\r\n|\n|\r/)`. */
  function Lines(s: string): (rows: seq<string>)
    ensures |rows| >= 1
    ensures forall k :: 0 <= k < |rows| ==> '\n' !in rows[k] && '\r' !in rows[k]
  {
    if |s| == 0 then [""]
    else if |s| >= 2 && s[0] == '\r' && s[1] == '\n' then [""] + Lines(s[2..])
    else if s[0] == '\r' || s[0] == '\n' then [""] + Lines(s[1..])
    else
      var rest := Lines(s[1..]);
      [[s[0]] + rest[0]] + rest[1..]
  }

  /** `rows.join('\n')`. */
  function JoinLines(rows: seq<string>): string
  {
    Join(rows, '\n')
  }

  /** A string with no line break in it is one row. */
  lemma {:induction false} LinesPlain(s: string)
    requires '\n' !in s && '\r' !in s
    ensures Lines(s) == [s]
  {
    if |s| > 0 {
      LinesPlain(s[1..]);
      assert [s[0]] + s[1..] == s;
    }
  }

  /** The line feed after a row without line breaks ends that row. */
  lemma {:induction false} LinesAt(a: string, b: string)
    requires '\n' !in a && '\r' !in a
    ensures Lines(a + "\n" + b) == [a] + Lines(b)
  {
    if |a| == 0 {
      assert a + "\n" + b == "\n" + b;
      assert ("\n" + b)[1..] == b;
    } else {
      LinesAt(a[1..], b);
      var s := a + "\n" + b;
      assert s[0] == a[0] && s[1..] == a[1..] + "\n" + b;
      assert [a[0]] + a[1..] == a;
    }
  }

  /** Rows without line breaks, joined by line feeds, split back into the same rows. */
  lemma {:induction false} LinesJoin(rows: seq<string>)
    requires |rows| >= 1
    requires forall k :: 0 <= k < |rows| ==> '\n' !in rows[k] && '\r' !in rows[k]
    ensures Lines(JoinLines(rows)) == rows
  {
    if |rows| == 1 {
      LinesPlain(rows[0]);
    } else {
      LinesJoin(rows[1..]);
      LinesAt(rows[0], JoinLines(rows[1..]));
      assert [rows[0]] + rows[1..] == rows;
    }
  }

  /**
   * `const [name, phone, email] = row.split(';')`. A missing phone is
   * `undefined`, which, like the empty string, is no key of a well-formed
   * book and fails the `!phone` test, so it is read as `""`; a missing
   * email takes the default `''` of `add` and `update`.
   */
  datatype Fields = Fields(name: string, phone: string, email: string)

  function FieldsOf(row: string): Fields
  {
    var parts := Split(row, ';');
    Fields(parts[0], if |parts| > 1 then parts[1] else "", if |parts| > 2 then parts[2] else "")
  }

  /** One row: `update(phone, name, email) || add(phone, name, email)`. */
  function ImportRow(book: seq<Contact>, row: string): (r: Outcome)
    ensures !r.ok ==> r.book == book
  {
    var f := FieldsOf(row);
    var updated := UpdateOutcome(book, f.phone, Str(f.name), f.email);
    if updated.ok then updated else AddOutcome(book, f.phone, Str(f.name), f.email)
  }

  /**
   * A row is counted exactly when its name and phone pass the check, and
   * then its phone holds the row's entry.
   */
  lemma ImportRowMeans(book: seq<Contact>, row: string)
    ensures ImportRow(book, row).ok <==> Acceptable(FieldsOf(row).phone, Str(FieldsOf(row).name))
    ensures ImportRow(book, row).ok ==>
      Get(ImportRow(book, row).book, FieldsOf(row).phone) == Some(Contact(FieldsOf(row).phone, FieldsOf(row).name, FieldsOf(row).email))
  {
  }

  /** The number of rows imported and the book after them. */
  datatype Imported = Imported(count: nat, book: seq<Contact>)

  /** Every row in order. */
  function Import(book: seq<Contact>, rows: seq<string>): (r: Imported)
    ensures r.count <= |rows|
    decreases |rows|
  {
    if |rows| == 0 then Imported(0, book)
    else
      var first := ImportRow(book, rows[0]);
      var rest := Import(first.book, rows[1..]);
      Imported(rest.count + (if first.ok then 1 else 0), rest.book)
  }

  /** Importing keeps the book well formed. */
  lemma {:induction false} ImportWellFormed(book: seq<Contact>, rows: seq<string>)
    requires WellFormed(book)
    ensures WellFormed(Import(book, rows).book)
    decreases |rows|
  {
    if |rows| > 0 {
      var f := FieldsOf(rows[0]);
      StoreWellFormed(book, f.phone, Str(f.name), f.email);
      ImportWellFormed(ImportRow(book, rows[0]).book, rows[1..]);
    }
  }

  /** The row of an entry, as `importFromDsv` reads it. */
  function Row(c: Contact): string
  {
    c.name + ";" + c.phone + ";" + c.email
  }

  /** An entry whose name and email hold no separator. */
  predicate Exportable(c: Contact)
  {
    ';' !in c.name && ';' !in c.email && '\n' !in c.name + c.email && '\r' !in c.name + c.email
  }

  /** The rows of a book, one line each. */
  function Export(book: seq<Contact>): string
  {
    JoinLines(seq(|book|, k requires 0 <= k < |book| => Row(book[k])))
  }

  /** The fields of an entry's row are the entry's. */
  lemma FieldsOfRow(c: Contact)
    requires Exportable(c) && IsPhone(c.phone)
    ensures FieldsOf(Row(c)) == Fields(c.name, c.phone, c.email)
  {
    assert forall i :: 0 <= i < |c.phone| ==> c.phone[i] != ';' by {
      forall i | 0 <= i < |c.phone| ensures c.phone[i] != ';' { assert IsDigit(c.phone[i]); }
    }
    var parts := [c.name, c.phone, c.email];
    assert Join(parts[1..], ';') == c.phone + ";" + c.email;
    assert Join(parts, ';') == Row(c);
    SplitJoin(parts, ';');
  }

  /** Importing rows holding a book's remaining entries into its first `k` entries rebuilds it. */
  lemma {:induction false} ImportRest(book: seq<Contact>, rows: seq<string>, k: nat)
    requires WellFormed(book) && k <= |book| && |rows| == |book|
    requires forall j :: 0 <= j < |book| ==> FieldsOf(rows[j]) == Fields(book[j].name, book[j].phone, book[j].email)
    ensures Import(book[..k], rows[k..]) == Imported(|book| - k, book)
    decreases |book| - k
  {
    if k == |book| {
      assert book[..k] == book;
    } else {
      ImportRest(book, rows, k + 1);
      assert rows[k..][1..] == rows[k + 1..];
      ImportStep(book, k, rows[k..], |book| - k - 1);
    }
  }

  /** Rows starting with the `k`-th entry, imported onto the entries before it, append that entry first. */
  lemma ImportStep(book: seq<Contact>, k: nat, rows: seq<string>, n: nat)
    requires WellFormed(book) && k < |book| && |rows| > 0
    requires FieldsOf(rows[0]) == Fields(book[k].name, book[k].phone, book[k].email)
    requires Import(book[..k + 1], rows[1..]) == Imported(n, book)
    ensures Import(book[..k], rows) == Imported(n + 1, book)
  {
    var c, done := book[k], book[..k];
    PrefixLacks(book, k);
    ImportRowNew(done, c, rows[0]);
    PrefixSnoc(book, k);
    ImportCons(done, rows, c, n, book);
  }

  /** The first `k + 1` entries are the first `k` followed by the `k`-th. */
  lemma PrefixSnoc(book: seq<Contact>, k: nat)
    requires k < |book|
    ensures book[..k + 1] == book[..k] + [book[k]]
  {
  }

  /** No entry before the `k`-th of a well-formed book carries its phone. */
  lemma PrefixLacks(book: seq<Contact>, k: nat)
    requires WellFormed(book) && k < |book|
    ensures !Has(book[..k], book[k].phone)
  {
    forall j | 0 <= j < k ensures book[..k][j].phone != book[k].phone {
      assert book[..k][j] == book[j];
    }
  }

  /** Importing rows whose first appends `c` is importing the rest after `c`. */
  lemma ImportCons(book: seq<Contact>, rows: seq<string>, c: Contact, n: nat, after: seq<Contact>)
    requires |rows| > 0 && ImportRow(book, rows[0]) == Outcome(true, book + [c])
    requires Import(book + [c], rows[1..]) == Imported(n, after)
    ensures Import(book, rows) == Imported(n + 1, after)
  {
  }

  /** The row of a checked entry with a new phone appends that entry. */
  lemma ImportRowNew(book: seq<Contact>, c: Contact, row: string)
    requires IsPhone(c.phone) && c.name != "" && !Has(book, c.phone)
    requires FieldsOf(row) == Fields(c.name, c.phone, c.email)
    ensures ImportRow(book, row) == Outcome(true, book + [c])
  {
    assert !UpdateOutcome(book, c.phone, Str(c.name), c.email).ok;
    assert AddOutcome(book, c.phone, Str(c.name), c.email) == Outcome(true, book + [c]);
  }

  /**
   * A well-formed book written out as rows and imported into an empty
   * book comes back entry for entry, every row counted. An empty book is
   * the empty text, whose one blank row has no phone and is not counted.
   */
  lemma ExportImport(book: seq<Contact>)
    requires WellFormed(book)
    requires forall j :: 0 <= j < |book| ==> Exportable(book[j])
    ensures Import([], Lines(Export(book))) == Imported(|book|, book)
  {
    if |book| == 0 {
      assert Export(book) == "";
      LinesPlain("");
      ImportRowMeans([], "");
      return;
    }
    var rows := seq(|book|, k requires 0 <= k < |book| => Row(book[k]));
    forall k | 0 <= k < |rows| ensures '\n' !in rows[k] && '\r' !in rows[k] {
      assert rows[k] == book[k].name + ";" + book[k].phone + ";" + book[k].email;
      assert forall i :: 0 <= i < |book[k].phone| ==> IsDigit(book[k].phone[i]);
    }
    LinesJoin(rows);
    forall j | 0 <= j < |book| ensures FieldsOf(rows[j]) == Fields(book[j].name, book[j].phone, book[j].email) {
      FieldsOfRow(book[j]);
    }
    ImportRest(book, rows, 0);
    assert book[..0] == [] && rows[0..] == rows;
  }

  // ---------------------------------------------------------------------
  // The book

  class Book {
    /** The entries of `phoneBook`, in insertion order. */
    var entries: seq<Contact>

    ghost predicate Valid()
      reads this
    {
      WellFormed(entries)
    }

    constructor ()
      ensures entries == [] && Valid()
    {
      entries := [];
    }

    /** `CheckAndUpdate`. */
    method CheckAndUpdate(phone: string, name: Value, email: string) returns (ok: bool)
      requires Valid()
      modifies this
      ensures Valid()
      ensures ok == Store(old(entries), phone, name, email).ok
      ensures entries == Store(old(entries), phone, name, email).book
    {
      if !name.Str? || name.s == "" || !IsPhone(phone) {
        return false;
      }
      PutWellFormed(entries, Contact(phone, name.s, email));
      entries := Put(entries, Contact(phone, name.s, email));
      return true;
    }

    /** `add`. */
    method Add(phone: string, name: Value, email: string) returns (ok: bool)
      requires Valid()
      modifies this
      ensures Valid()
      ensures ok == AddOutcome(old(entries), phone, name, email).ok
      ensures entries == AddOutcome(old(entries), phone, name, email).book
    {
      if Has(entries, phone) {
        return false;
      }
      ok := CheckAndUpdate(phone, name, email);
    }

    /** `update`. */
    method Update(phone: string, name: Value, email: string) returns (ok: bool)
      requires Valid()
      modifies this
      ensures Valid()
      ensures ok == UpdateOutcome(old(entries), phone, name, email).ok
      ensures entries == UpdateOutcome(old(entries), phone, name, email).book
    {
      if !Has(entries, phone) {
        return false;
      }
      ok := CheckAndUpdate(phone, name, email);
    }

    /** `getPhones`: the `forEach` over the book collecting the matches. */
    method GetPhones(query: Value) returns (phones: seq<Contact>)
      ensures phones == Matching(entries, query)
    {
      phones := [];
      if !query.Str? || query.s == "" {
        return;
      }
      for k := 0 to |entries|
        invariant phones == Select(entries[..k], query.s)
      {
        assert entries[..k + 1][..k] == entries[..k];
        if Matches(entries[k], query.s) {
          phones := phones + [entries[k]];
        }
      }
      assert entries[..|entries|] == entries;
    }

    /**
     * `find`: the lines of the matches, sorted. The `phones === {}` test
     * compares with a fresh object and never holds, so no early return.
     */
    method Find(query: Value) returns (lines: seq<string>)
      requires Valid()
      ensures lines == FindLines(entries, query)
    {
      var result := [];
      var phones := GetPhones(query);
      assert PhonesOfTen(phones);
      for k := 0 to |phones|
        invariant |result| == k
        invariant forall j :: 0 <= j < k ==> result[j] == Render(phones[j])
      {
        result := result + [Render(phones[k])];
      }
      assert result == RenderAll(phones);
      lines := SortBy(result, Itself);
    }

    /**
     * `findAndRemove`: counts the matches that contain the query literally.
     * `delete phoneBook.key` removes the property named `key`, which no
     * ten-digit entry has, so the book is left as it was.
     */
    method FindAndRemove(query: Value) returns (count: nat)
      ensures count == RemovalCount(entries, query)
    {
      count := 0;
      var phones := GetPhones(query);
      if !query.Str? {
        return;
      }
      for k := 0 to |phones|
        invariant count == CountLiteral(phones[..k], query.s)
      {
        assert phones[..k + 1][..k] == phones[..k];
        var c := phones[k];
        if Contains(c.phone, query.s) || Contains(c.name, query.s) || (c.email != "" && Contains(c.email, query.s)) {
          count := count + 1;
        }
      }
      assert phones[..|phones|] == phones;
    }

    /** `importFromDsv`: each row is updated or else added; the rows that succeed are counted. */
    method ImportFromDsv(dsv: Value) returns (count: nat)
      requires Valid()
      modifies this
      ensures Valid()
      ensures !dsv.Str? || dsv.s == "" ==> count == 0 && entries == old(entries)
      ensures dsv.Str? && dsv.s != "" ==>
        count == Import(old(entries), Lines(dsv.s)).count && entries == Import(old(entries), Lines(dsv.s)).book
    {
      count := 0;
      if !dsv.Str? || dsv.s == "" {
        return;
      }
      var rows := Lines(dsv.s);
      for k := 0 to |rows|
        invariant Valid()
        invariant count + Import(entries, rows[k..]).count == Import(old(entries), rows).count
        invariant Import(entries, rows[k..]).book == Import(old(entries), rows).book
      {
        assert rows[k..][1..] == rows[k + 1..];
        var f := FieldsOf(rows[k]);
        var updated := Update(f.phone, Str(f.name), f.email);
        var ok := updated;
        if !updated {
          ok := Add(f.phone, Str(f.name), f.email);
        }
        if ok {
          count := count + 1;
        }
      }
    }
  }
}
