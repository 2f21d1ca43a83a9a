/** The dead-letter queue: its file, and the replay that empties it.

    An entry is written as one line by `encode`, a JSON document in the program. All that is used of
    JSON is `CodecOk`, which `CodecExists` shows can be met. */
module DeadLetter {
  import opened Numbers
  import opened Wrappers

  datatype Entry = Entry(id: string, record: string)

  // ---- Queues ----

  /** The first entry for `id` is taken out, if there is one. */
  function RemoveFirst(es: seq<Entry>, id: string): seq<Entry> {
    if es == [] then []
    else if es[0].id == id then es[1..]
    else [es[0]] + RemoveFirst(es[1..], id)
  }

  /** The ids in the queue, each as often as it occurs. */
  function Ids(es: seq<Entry>): multiset<string> {
    if es == [] then multiset{} else multiset{es[0].id} + Ids(es[1..])
  }

  lemma {:induction false} RemoveAtFirst(es: seq<Entry>, i: nat)
    requires i < |es| && forall j :: 0 <= j < i ==> es[j].id != es[i].id
    ensures RemoveFirst(es, es[i].id) == es[..i] + es[i + 1..]
  {
    if i > 0 {
      RemoveAtFirst(es[1..], i - 1);
      assert es[..i] == [es[0]] + es[1..][..i - 1];
    }
  }

  lemma {:induction false} RemoveAbsent(es: seq<Entry>, id: string)
    requires forall j :: 0 <= j < |es| ==> es[j].id != id
    ensures RemoveFirst(es, id) == es
  {
    if es != [] {
      RemoveAbsent(es[1..], id);
      assert [es[0]] + es[1..] == es;
    }
  }

  // ---- The file ----

  /** What `trim` takes for white space. */
  predicate Space(c: char) {
    '\t' <= c <= '\r' || c == ' ' || c == '\U{A0}' || c == '\U{1680}' || '\U{2000}' <= c <= '\U{200A}' ||
    c == '\U{2028}' || c == '\U{2029}' || c == '\U{202F}' || c == '\U{205F}' || c == '\U{3000}' || c == '\U{FEFF}'
  }

  /** What a JSON document may begin with, by section 2 of RFC 8259. */
  predicate JsonSpace(c: char) {
    c == ' ' || c == '\t' || c == '\r' || c == '\n'
  }

  predicate Blank(line: string) {
    forall c :: c in line ==> Space(c)
  }

  predicate JsonBlank(line: string) {
    forall c :: c in line ==> JsonSpace(c)
  }

  /** The index of the first line feed, or the length of the text. */
  function LineLength(text: string): (n: nat)
    ensures n <= |text| && '\n' !in text[..n]
    ensures n < |text| ==> text[n] == '\n'
  {
    if text == "" || text[0] == '\n' then 0 else LineLength(text[1..]) + 1
  }

  /** One line after another, unless one of them cannot be read. */
  function Both(a: Option<seq<Entry>>, b: Option<seq<Entry>>): Option<seq<Entry>> {
    if a.Some? && b.Some? then Some(a.value + b.value) else None
  }

  lemma {:induction false} BothFacts(a: Option<seq<Entry>>, b: Option<seq<Entry>>, c: Option<seq<Entry>>)
    ensures Both(a, Both(b, c)) == Both(Both(a, b), c)
    ensures Both(a, Some([])) == a == Both(Some([]), a)
  {
    if a.Some? {
      assert a.value + [] == a.value == [] + a.value;
      if b.Some? && c.Some? {
        assert a.value + (b.value + c.value) == a.value + b.value + c.value;
      }
    }
  }

  /** The entry of a line, if it is not blank. */
  function LoadOne(decode: string -> Option<Entry>, line: string): Option<seq<Entry>> {
    if Blank(line) then Some([])
    else if decode(line).Some? then Some([decode(line).value])
    else None
  }

  /** The entries of a file, line by line; no queue comes from a file with a line that cannot be decoded. */
  function Load(decode: string -> Option<Entry>, text: string): Option<seq<Entry>>
    decreases |text|
  {
    var n := LineLength(text);
    Both(LoadOne(decode, text[..n]), if n < |text| then Load(decode, text[n + 1..]) else Some([]))
  }

  function Dump(encode: Entry -> string, es: seq<Entry>): string {
    if es == [] then "" else encode(es[0]) + "\n" + Dump(encode, es[1..])
  }

  /** An encoded entry is one line, not blank. It is an object, so a line that ends with it is a document
      exactly if nothing but JSON's own white space stands before it. */
  ghost predicate CodecOk(encode: Entry -> string, decode: string -> Option<Entry>) {
    forall e: Entry :: '\n' !in encode(e) && !Blank(encode(e)) && DecodesAlone(encode, decode, e)
  }

  ghost predicate DecodesAlone(encode: Entry -> string, decode: string -> Option<Entry>, e: Entry) {
    forall before: string :: '\n' !in before ==>
      decode(before + encode(e)) == if JsonBlank(before) then Some(e) else None
  }

  // ---- There are such codecs ----

  function Unary(s: string): string {
    if s == "" then "" else seq(s[0] as int, _ => 'i') + "," + Unary(s[1..])
  }

  lemma {:induction false} UnaryRead(a: string, b: string, x: string, y: string)
    requires Unary(a) + ";" + x == Unary(b) + ";" + y
    ensures a == b && x == y
  {
    var s := Unary(a) + ";" + x;
    FirstChar(a, x);
    FirstChar(b, y);
    if a == "" || b == "" {
      assert x == s[1..] && y == s[1..];
    } else {
      UnaryRead(a[1..], b[1..], x, y);
      assert a == [a[0]] + a[1..] && b == [b[0]] + b[1..];
    }
  }

  lemma {:induction false} FirstChar(a: string, x: string)
    ensures var s := Unary(a) + ";" + x;
            if a == "" then s[0] == ';'
            else
              var n := a[0] as int;
              && n < |s| && s[0] != ';' && s[n] == ',' && (forall k :: 0 <= k < n ==> s[k] == 'i')
              && s[n + 1..] == Unary(a[1..]) + ";" + x
  {
  }

  lemma {:induction false} UnaryChars(s: string)
    ensures forall c :: c in Unary(s) ==> c == 'i' || c == ','
  {
    if s != "" {
      UnaryChars(s[1..]);
    }
  }

  function Inside(e: Entry): string {
    Unary(e.id) + ";" + (Unary(e.record) + ";" + "}")
  }

  function Braced(e: Entry): string {
    "{" + Inside(e)
  }

  lemma {:induction false} InsideChars(e: Entry)
    ensures '{' !in Inside(e) && '\n' !in Inside(e)
  {
    hide Unary;
    UnaryChars(e.id);
    UnaryChars(e.record);
  }

  ghost predicate Follows(text: string, before: string, e: Entry) {
    text == before + Braced(e)
  }

  ghost function Unbraced(text: string): Option<Entry> {
    if exists before, e :: Follows(text, before, e) && JsonBlank(before)
    then
      var before, e :| Follows(text, before, e) && JsonBlank(before);
      Some(e)
    else None
  }

  lemma {:induction false} BraceAt(text: string, before: string, e: Entry)
    requires Follows(text, before, e)
    ensures var i := |before|;
            && i < |text| && text[i] == '{' && text[..i] == before && text[i + 1..] == Inside(e)
            && forall k :: i < k < |text| ==> text[k] != '{'
  {
    hide Inside;
    InsideChars(e);
    var i := |before|;
    assert text[i + 1..] == Inside(e);
    assert forall k :: i < k < |text| ==> text[k] == text[i + 1..][k - i - 1];
  }

  lemma {:induction false} BracedOnce(text: string, before: string, e: Entry, other: string, f: Entry)
    requires Follows(text, before, e) && Follows(text, other, f)
    ensures before == other && e == f
  {
    hide Unary, Follows;
    BraceAt(text, before, e);
    BraceAt(text, other, f);
    UnaryRead(e.id, f.id, Unary(e.record) + ";" + "}", Unary(f.record) + ";" + "}");
    UnaryRead(e.record, f.record, "}", "}");
  }

  /** What is asked of JSON can be met. */
  lemma {:induction false} CodecExists()
    ensures exists encode: Entry -> string, decode: string -> Option<Entry> :: CodecOk(encode, decode)
  {
    var encode: Entry -> string, decode: string -> Option<Entry> := e => Braced(e), text => Unbraced(text);
    forall e: Entry ensures '\n' !in encode(e) && !Blank(encode(e)) && DecodesAlone(encode, decode, e) {
      hide Inside;
      InsideChars(e);
      assert Braced(e)[0] == '{' && !Space('{');
      forall before: string ensures decode(before + encode(e)) == if JsonBlank(before) then Some(e) else None {
        var text := before + Braced(e);
        assert Follows(text, before, e);
        forall other, f | Follows(text, other, f) ensures other == before && f == e {
          BracedOnce(text, before, e, other, f);
        }
      }
    }
    assert CodecOk(encode, decode);
  }

  predicate EndsLine(text: string) {
    text == "" || text[|text| - 1] == '\n'
  }

  /** What follows the last line feed. */
  function LastLine(text: string): (last: string)
    ensures |last| <= |text| && text[|text| - |last|..] == last && '\n' !in last
    ensures EndsLine(text[..|text| - |last|])
  {
    if EndsLine(text) then "" else LastLine(text[..|text| - 1]) + [text[|text| - 1]]
  }

  lemma {:induction false} LineLengthIs(text: string, n: nat)
    requires n <= |text| && '\n' !in text[..n] && (n < |text| ==> text[n] == '\n')
    ensures LineLength(text) == n
  {
    if n > 0 {
      assert text[..n][0] == text[0];
      assert text[1..][..n - 1] == text[..n][1..];
      LineLengthIs(text[1..], n - 1);
    }
  }

  lemma {:induction false} LoadLine(decode: string -> Option<Entry>, line: string, rest: string)
    requires '\n' !in line
    ensures Load(decode, line + "\n" + rest) == Both(LoadOne(decode, line), Load(decode, rest))
    ensures Load(decode, line) == LoadOne(decode, line)
  {
    hide LoadOne, Both;
    var text := line + "\n" + rest;
    assert text[..|line|] == line && text[|line| + 1..] == rest;
    LineLengthIs(text, |line|);
    assert line[..|line|] == line;
    LineLengthIs(line, |line|);
    BothFacts(LoadOne(decode, line), None, None);
  }

  lemma {:induction false} FirstLine(text: string) returns (line: string, rest: string)
    requires EndsLine(text) && text != ""
    ensures text == line + "\n" + rest && '\n' !in line && EndsLine(rest)
  {
    var n := LineLength(text);
    assert n < |text| by {
      assert text[..|text|] == text && text[|text| - 1] in text;
    }
    line, rest := text[..n], text[n + 1..];
    assert rest != "" ==> rest[|rest| - 1] == text[|text| - 1];
  }

  lemma {:induction false} LoadConcat(decode: string -> Option<Entry>, a: string, b: string)
    requires EndsLine(a)
    ensures Load(decode, a + b) == Both(Load(decode, a), Load(decode, b))
    decreases |a|
  {
    hide Load, LoadOne, Both;
    if a == "" {
      assert a + b == b;
      LoadNothing(decode);
      BothFacts(Load(decode, b), None, None);
    } else {
      var line, rest := FirstLine(a);
      assert a + b == line + "\n" + (rest + b);
      LoadLine(decode, line, rest + b);
      LoadLine(decode, line, rest);
      LoadConcat(decode, rest, b);
      BothFacts(LoadOne(decode, line), Load(decode, rest), Load(decode, b));
    }
  }

  lemma {:induction false} LoadNothing(decode: string -> Option<Entry>)
    ensures Load(decode, "") == Some([])
  {
    LoadLine(decode, "", "");
  }

  /** The queue survives being written out and loaded again. */
  lemma {:induction false} LoadDump(encode: Entry -> string, decode: string -> Option<Entry>, es: seq<Entry>)
    requires CodecOk(encode, decode)
    ensures Load(decode, Dump(encode, es)) == Some(es) && EndsLine(Dump(encode, es))
  {
    hide Load, Blank, CodecOk;
    if es == [] {
      LoadNothing(decode);
    } else {
      var tail := Dump(encode, es[1..]);
      LoadDump(encode, decode, es[1..]);
      DecodeEncoded(encode, decode, es[0]);
      LoadLine(decode, encode(es[0]), tail);
      assert es == [es[0]] + es[1..];
      EndsAfterLine(encode(es[0]), tail);
    }
  }

  lemma {:induction false} EndsAfterLine(line: string, tail: string)
    requires EndsLine(tail)
    ensures EndsLine(line + "\n" + tail)
  {
  }

  lemma {:induction false} DecodeEncoded(encode: Entry -> string, decode: string -> Option<Entry>, e: Entry)
    requires CodecOk(encode, decode)
    ensures decode(encode(e)) == Some(e) && '\n' !in encode(e) && !Blank(encode(e))
  {
    assert DecodesAlone(encode, decode, e) && JsonBlank("");
    assert "" + encode(e) == encode(e);
  }

  /** An appended entry is found again exactly when the file has nothing but JSON's white space after its
      last line feed; after anything else, be it an entry, no entry of the file is found again. */
  lemma {:induction false} AppendDecodes(encode: Entry -> string, decode: string -> Option<Entry>, text: string,
                                         e: Entry)
    requires CodecOk(encode, decode)
    ensures Load(decode, text + (encode(e) + "\n"))
            == if JsonBlank(LastLine(text)) then Both(Load(decode, text), Some([e])) else None
    ensures EndsLine(text + (encode(e) + "\n"))
  {
    hide Load, LoadOne, Both, Blank, JsonBlank, LastLine;
    var last := LastLine(text);
    var body := text[..|text| - |last|];
    var line := last + encode(e);
    assert text == body + last;
    assert text + (encode(e) + "\n") == body + (line + "\n" + "") by {
      assert line + "\n" + "" == last + (encode(e) + "\n");
    }
    LoadConcat(decode, body, last);
    LoadConcat(decode, body, line + "\n" + "");
    LoadLine(decode, last, "");
    LoadLine(decode, line, "");
    LoadNothing(decode);
    JoinedLine(encode, decode, e, last);
    BothFacts(Load(decode, body), Some([]), Some([e]));
    BothFacts(LoadOne(decode, line), None, None);
    NoneInBoth(Load(decode, body));
  }

  lemma {:induction false} NoneInBoth(a: Option<seq<Entry>>)
    ensures Both(a, None) == None
  {
  }

  /** What is left of the last line, run into the line of an entry. */
  lemma {:induction false} JoinedLine(encode: Entry -> string, decode: string -> Option<Entry>, e: Entry, last: string)
    requires CodecOk(encode, decode) && '\n' !in last
    ensures '\n' !in last + encode(e)
    ensures JsonBlank(last) ==> LoadOne(decode, last) == Some([])
    ensures LoadOne(decode, last + encode(e)) == if JsonBlank(last) then Some([e]) else None
  {
    assert DecodesAlone(encode, decode, e);
    var c :| c in encode(e) && !Space(c);
    assert c in last + encode(e);
  }

  /** A file that lost its last line feed: it is read, and one more entry makes it unreadable. */
  lemma {:induction false} LostLineFeedExample(encode: Entry -> string, decode: string -> Option<Entry>, e: Entry,
                                               f: Entry)
    requires CodecOk(encode, decode)
    ensures Load(decode, encode(e)) == Some([e])
    ensures Load(decode, encode(e) + (encode(f) + "\n")) == None
  {
    hide Load, LastLine;
    var text := encode(e);
    DecodeEncoded(encode, decode, e);
    LoadLine(decode, text, "");
    AppendDecodes(encode, decode, text, f);
    LastLineIs(text);
  }

  lemma {:induction false} LastLineIs(text: string)
    requires '\n' !in text
    ensures LastLine(text) == text
  {
    assert '\n' !in text[..|text| - |LastLine(text)|];
  }

  // ---- Appending ----

  /** A queue: its entries, and its file. */
  datatype Queue = Queue(entries: seq<Entry>, file: string)

  /** The file decodes to the entries. */
  predicate Synced(decode: string -> Option<Entry>, q: Queue) {
    Load(decode, q.file) == Some(q.entries)
  }

  /** Nothing but JSON's white space stands behind the last line feed of the file. */
  predicate EndsCleanly(q: Queue) {
    JsonBlank(LastLine(q.file))
  }

  /** From `q` to `r`, `added` was appended, entry by entry. */
  ghost predicate Grew(decode: string -> Option<Entry>, q: Queue, r: Queue, added: seq<Entry>) {
    && r.entries == q.entries + added
    && (added == [] ==> r.file == q.file)
    && (added != [] ==>
          && EndsCleanly(r)
          && Load(decode, r.file) == if EndsCleanly(q) then Both(Load(decode, q.file), Some(added)) else None)
  }

  lemma {:induction false} GrewNot(decode: string -> Option<Entry>, q: Queue)
    ensures Grew(decode, q, q, [])
  {
  }

  lemma {:induction false} GrewOn(decode: string -> Option<Entry>, q: Queue, r: Queue, s: Queue, added: seq<Entry>,
                                  more: seq<Entry>)
    requires Grew(decode, q, r, added) && Grew(decode, r, s, more)
    ensures Grew(decode, q, s, added + more)
  {
    hide Load, EndsCleanly, Both;
    BothFacts(Load(decode, q.file), Some(added), Some(more));
    assert Both(Some(added), Some(more)) == Some(added + more) && Both(None, Some(more)) == None by {
      BothOfSome(added, more);
    }
    assert q.entries + added + more == q.entries + (added + more);
    assert q.entries + [] == q.entries && [] + more == more && added + [] == added;
  }

  lemma {:induction false} BothOfSome(a: seq<Entry>, b: seq<Entry>)
    ensures Both(Some(a), Some(b)) == Some(a + b) && Both(None, Some(b)) == None
  {
  }

  lemma {:induction false} GrewEntries(decode: string -> Option<Entry>, q: Queue, r: Queue, added: seq<Entry>)
    requires Grew(decode, q, r, added)
    ensures r.entries == q.entries + added
  {
  }

  /** A file that decoded to its entries still does exactly if nothing was appended, or it ended cleanly;
      if not, it does not decode any more. */
  lemma {:induction false} GrewSynced(decode: string -> Option<Entry>, q: Queue, r: Queue, added: seq<Entry>)
    requires Grew(decode, q, r, added) && Synced(decode, q)
    ensures Synced(decode, r) <==> added == [] || EndsCleanly(q)
    ensures !Synced(decode, r) ==> Load(decode, r.file) == None
  {
    hide Load, EndsCleanly;
    assert q.entries + [] == q.entries;
  }

  lemma {:induction false} AppendGrows(encode: Entry -> string, decode: string -> Option<Entry>, q: Queue, e: Entry,
                                       r: Queue)
    requires CodecOk(encode, decode) && r == Queue(q.entries + [e], q.file + (encode(e) + "\n"))
    ensures Grew(decode, q, r, [e]) && EndsLine(r.file)
  {
    hide CodecOk, Load, LastLine, JsonBlank, Both, EndsLine;
    AppendDecodes(encode, decode, q.file, e);
    NothingBehind(r.file);
  }

  lemma {:induction false} NothingBehind(text: string)
    requires EndsLine(text)
    ensures JsonBlank(LastLine(text))
  {
  }

  /** How rewriting the file goes: a write that fails leaves behind whatever it does. */
  datatype FileWrite = Written | Failed(left: string)

  datatype Removal = Removed | Absent | Threw

  function Rewritten(encode: Entry -> string, es: seq<Entry>, write: FileWrite): string {
    if write.Written? then Dump(encode, es) else write.left
  }

  class FileDeadLetterQueue {
    const encode: Entry -> string
    const decode: string -> Option<Entry>
    var entries: seq<Entry>
    var file: string

    ghost function State(): Queue
      reads this
    {
      Queue(entries, file)
    }

    /** The file decodes to the entries. */
    ghost predicate InSync()
      reads this
    {
      CodecOk(encode, decode) && Synced(decode, State())
    }

    constructor (encode: Entry -> string, decode: string -> Option<Entry>, file: string, entries: seq<Entry>)
      ensures this.encode == encode && this.decode == decode && this.file == file && this.entries == entries
    {
      this.encode, this.decode := encode, decode;
      this.file, this.entries := file, entries;
    }

    /** A queue is loaded with the entries of its file; one line that does not decode, and there is none. */
    static method Open(encode: Entry -> string, decode: string -> Option<Entry>, file: string)
      returns (queue: FileDeadLetterQueue?)
      requires CodecOk(encode, decode)
      ensures queue == null <==> Load(decode, file) == None
      ensures queue != null ==>
        fresh(queue) && queue.InSync() && queue.file == file && queue.encode == encode && queue.decode == decode
    {
      hide CodecOk, Load;
      var entries := Load(decode, file);
      if entries == None {
        return null;
      }
      queue := new FileDeadLetterQueue(encode, decode, file, entries.value);
    }

    /** The file keeps decoding to the entries exactly if it ended cleanly; if not, it cannot be loaded any
        more. */
    method Enqueue(e: Entry)
      requires CodecOk(encode, decode)
      modifies this
      ensures entries == old(entries) + [e] && file == old(file) + (encode(e) + "\n")
      ensures old(InSync()) ==>
        (InSync() <==> old(EndsCleanly(State()))) && (!InSync() ==> Load(decode, file) == None)
      ensures Grew(decode, old(State()), State(), [e]) && EndsLine(file)
    {
      hide CodecOk, Load, Grew, Synced, EndsCleanly;
      ghost var before, after := State(), Queue(entries + [e], file + (encode(e) + "\n"));
      AppendGrows(encode, decode, before, e, after);
      if Synced(decode, before) {
        GrewSynced(decode, before, after, [e]);
      }
      file := file + (encode(e) + "\n");
      entries := entries + [e];
      assert State() == after;
    }

    /** The entry leaves the list before the file is written, so it is gone from it whether that fails or not. */
    method Remove(id: string, write: FileWrite) returns (r: Removal)
      requires CodecOk(encode, decode)
      modifies this
      ensures entries == RemoveFirst(old(entries), id)
      ensures r.Absent? <==> forall e :: e in old(entries) ==> e.id != id
      ensures r.Absent? ==> file == old(file) && entries == old(entries)
      ensures !r.Absent? ==> file == Rewritten(encode, entries, write) && (r.Removed? <==> write.Written?)
      ensures r.Removed? ==> InSync() && EndsLine(file)
    {
      var index := 0;
      while index < |entries| && entries[index].id != id
        invariant 0 <= index <= |entries| && forall j :: 0 <= j < index ==> entries[j].id != id
      {
        index := index + 1;
      }
      if index == |entries| {
        RemoveAbsent(entries, id);
        return Absent;
      }
      RemoveAtFirst(entries, index);
      assert entries[index] in entries;
      entries := entries[..index] + entries[index + 1..];
      var ok := Persist(write);
      return if ok then Removed else Threw;
    }

    method Clear(write: FileWrite) returns (ok: bool)
      requires CodecOk(encode, decode)
      modifies this
      ensures entries == [] && file == Rewritten(encode, [], write) && (ok <==> write.Written?)
      ensures ok ==> InSync() && EndsLine(file)
    {
      entries := [];
      ok := Persist(write);
    }

    method Persist(write: FileWrite) returns (ok: bool)
      requires CodecOk(encode, decode)
      modifies this`file
      ensures file == Rewritten(encode, entries, write) && (ok <==> write.Written?)
      ensures ok ==> InSync() && EndsLine(file)
    {
      file := Rewritten(encode, entries, write);
      LoadDump(encode, decode, entries);
      return write.Written?;
    }
  }

  // ---- Replay ----

  /** The queue once the first |ok| entries of `es` have been sent again, with these results. */
  function AfterReplay(es: seq<Entry>, ok: seq<bool>): seq<Entry>
    requires |ok| <= |es|
  {
    if ok == [] then es
    else
      var n := |ok| - 1;
      var before := AfterReplay(es, ok[..n]);
      if ok[n] then RemoveFirst(before, es[n].id) else before
  }

  function Delivered(es: seq<Entry>, ok: seq<bool>): seq<Entry>
    requires |ok| <= |es|
  {
    if ok == [] then []
    else
      var n := |ok| - 1;
      if ok[n] then Delivered(es, ok[..n]) + [es[n]] else Delivered(es, ok[..n])
  }

  /** The entries tried without success. */
  function Undelivered(es: seq<Entry>, ok: seq<bool>): seq<Entry>
    requires |ok| <= |es|
  {
    if ok == [] then []
    else
      var n := |ok| - 1;
      if ok[n] then Undelivered(es, ok[..n]) else Undelivered(es, ok[..n]) + [es[n]]
  }

  /** The entries for one id, oldest first. */
  function OfId(es: seq<Entry>, id: string): seq<Entry> {
    if es == [] then []
    else if es[0].id == id then [es[0]] + OfId(es[1..], id)
    else OfId(es[1..], id)
  }

  lemma {:induction false} OfIdConcat(a: seq<Entry>, b: seq<Entry>, id: string)
    ensures OfId(a + b, id) == OfId(a, id) + OfId(b, id)
  {
    if a == [] {
      assert a + b == b;
    } else {
      OfIdConcat(a[1..], b, id);
      assert (a + b)[1..] == a[1..] + b;
      assert [a[0]] + (OfId(a[1..], id) + OfId(b, id)) == [a[0]] + OfId(a[1..], id) + OfId(b, id);
    }
  }

  lemma {:induction false} OfIdOne(e: Entry, id: string)
    ensures OfId([e], id) == if e.id == id then [e] else []
  {
  }

  lemma {:induction false} OfIdMembers(es: seq<Entry>, id: string)
    ensures forall i :: 0 <= i < |OfId(es, id)| ==> OfId(es, id)[i].id == id && OfId(es, id)[i] in es
  {
    if es != [] {
      OfIdMembers(es[1..], id);
    }
  }

  /** Every copy of an entry is among those of its id. */
  lemma {:induction false} OfIdCopies(es: seq<Entry>, e: Entry)
    ensures multiset(OfId(es, e.id))[e] == multiset(es)[e]
  {
    if es != [] {
      var rest := OfId(es[1..], e.id);
      OfIdCopies(es[1..], e);
      assert es == [es[0]] + es[1..];
      assert multiset([es[0]] + rest) == multiset{es[0]} + multiset(rest);
    }
  }

  lemma {:induction false} OfIdRemove(es: seq<Entry>, gone: string, id: string)
    ensures OfId(RemoveFirst(es, gone), id)
            == if gone == id && OfId(es, id) != [] then OfId(es, id)[1..] else OfId(es, id)
  {
    if es != [] {
      if es[0].id == gone {
        assert gone == id ==> OfId(es, id)[1..] == OfId(es[1..], id);
      } else {
        var left := RemoveFirst(es[1..], gone);
        OfIdRemove(es[1..], gone, id);
        assert ([es[0]] + left)[1..] == left;
      }
    }
  }

  lemma {:induction false} IdsCount(es: seq<Entry>, id: string)
    ensures Ids(es)[id] == |OfId(es, id)|
  {
    if es != [] {
      IdsCount(es[1..], id);
    }
  }

  /** What one attempt does to the entries of an id. */
  lemma {:induction false} OfIdStep(es: seq<Entry>, ok: seq<bool>, id: string)
    requires 0 < |ok| <= |es|
    ensures var n := |ok| - 1;
            var hit := es[n].id == id;
            var was := OfId(AfterReplay(es, ok[..n]), id);
            var sent := OfId(Delivered(es, ok[..n]), id);
            && OfId(es[..n + 1], id) == (if hit then OfId(es[..n], id) + [es[n]] else OfId(es[..n], id))
            && OfId(Delivered(es, ok), id) == (if hit && ok[n] then sent + [es[n]] else sent)
            && OfId(AfterReplay(es, ok), id) == if hit && ok[n] && was != [] then was[1..] else was
  {
    hide OfId, RemoveFirst;
    var n := |ok| - 1;
    assert es[..n + 1] == es[..n] + [es[n]];
    OfIdConcat(es[..n], [es[n]], id);
    OfIdOne(es[n], id);
    OfIdRemove(AfterReplay(es, ok[..n]), es[n].id, id);
    var sent := Delivered(es, ok[..n]);
    OfIdConcat(sent, [es[n]], id);
    assert OfId(es[..n], id) + [] == OfId(es[..n], id) && OfId(sent, id) + [] == OfId(sent, id);
  }

  /** For each id the replay takes out its oldest entries, as many as it delivered: removal is by id,
      and may take out another record than the one that was sent. */
  lemma {:induction false} ReplayTakesOldest(es: seq<Entry>, ok: seq<bool>, id: string)
    requires |ok| <= |es|
    ensures var d := |OfId(Delivered(es, ok), id)|;
            && d <= |OfId(es[..|ok|], id)|
            && OfId(es[..|ok|], id) <= OfId(es, id)
            && OfId(AfterReplay(es, ok), id) == OfId(es, id)[d..]
  {
    hide OfId, RemoveFirst;
    assert es == es[..|ok|] + es[|ok|..];
    OfIdConcat(es[..|ok|], es[|ok|..], id);
    if ok == [] {
      NoneOfId(id);
    } else {
      ReplayTakesOldest(es, ok[..|ok| - 1], id);
      OfIdStep(es, ok, id);
    }
  }

  lemma {:induction false} NoneOfId(id: string)
    ensures OfId([], id) == []
  {
  }

  /** Whatever the ids are, what leaves the queue is, counted by id, what was delivered, and for no id
      are there fewer entries left than were not even tried. */
  lemma {:induction false} ReplayConserves(es: seq<Entry>, ok: seq<bool>)
    requires |ok| <= |es|
    ensures Ids(AfterReplay(es, ok)) + Ids(Delivered(es, ok)) == Ids(es)
    ensures Ids(es[|ok|..]) <= Ids(AfterReplay(es, ok))
  {
    hide Ids, AfterReplay, Delivered;
    var left, sent, untried := AfterReplay(es, ok), Delivered(es, ok), es[|ok|..];
    forall id: string
      ensures Ids(left)[id] + Ids(sent)[id] == Ids(es)[id] && Ids(untried)[id] <= Ids(left)[id]
    {
      CountsOfId(es, ok, id);
    }
    assert (Ids(left) + Ids(sent)) == Ids(es);
  }

  lemma {:induction false} CountsOfId(es: seq<Entry>, ok: seq<bool>, id: string)
    requires |ok| <= |es|
    ensures Ids(AfterReplay(es, ok))[id] + Ids(Delivered(es, ok))[id] == Ids(es)[id]
    ensures Ids(es[|ok|..])[id] <= Ids(AfterReplay(es, ok))[id]
  {
    hide Ids, OfId, AfterReplay, Delivered;
    ReplayTakesOldest(es, ok, id);
    IdsCount(AfterReplay(es, ok), id);
    IdsCount(Delivered(es, ok), id);
    IdsCount(es, id);
    IdsCount(es[|ok|..], id);
    assert es == es[..|ok|] + es[|ok|..];
    OfIdConcat(es[..|ok|], es[|ok|..], id);
  }

  // ---- Whether failures remain queued ----

  /** The replay's promise, counted by record: what stays queued is what failed and what was not tried. */
  predicate FailuresRemain(es: seq<Entry>, ok: seq<bool>)
    requires |ok| <= |es|
  {
    multiset(AfterReplay(es, ok)) == multiset(Undelivered(es, ok)) + multiset(es[|ok|..])
  }

  /** For each id, its oldest records, as many as were delivered, are the records that were delivered. */
  ghost predicate OldestWereDelivered(es: seq<Entry>, ok: seq<bool>)
    requires |ok| <= |es|
  {
    forall id :: OldestOfId(es, ok, id)
  }

  predicate OldestOfId(es: seq<Entry>, ok: seq<bool>, id: string)
    requires |ok| <= |es|
  {
    var d := OfId(Delivered(es, ok), id);
    |d| <= |OfId(es, id)| && multiset(OfId(es, id)[..|d|]) == multiset(d)
  }

  lemma {:induction false} CopiesSnoc(es: seq<Entry>, x: Entry, e: Entry)
    ensures multiset(es + [x])[e] == multiset(es)[e] + if e == x then 1 else 0
  {
  }

  lemma {:induction false} SentOrNotOne(es: seq<Entry>, ok: seq<bool>, e: Entry)
    requires |ok| <= |es|
    ensures multiset(Delivered(es, ok))[e] + multiset(Undelivered(es, ok))[e] == multiset(es[..|ok|])[e]
  {
    if ok != [] {
      var n := |ok| - 1;
      var sent, failed := Delivered(es, ok[..n]), Undelivered(es, ok[..n]);
      SentOrNotOne(es, ok[..n], e);
      CopiesSnoc(es[..n], es[n], e);
      CopiesSnoc(sent, es[n], e);
      CopiesSnoc(failed, es[n], e);
      assert es[..|ok|] == es[..n] + [es[n]];
    }
  }

  lemma {:induction false} SentOrNot(es: seq<Entry>, ok: seq<bool>)
    requires |ok| <= |es|
    ensures multiset(Delivered(es, ok)) + multiset(Undelivered(es, ok)) == multiset(es[..|ok|])
  {
    hide Delivered, Undelivered;
    forall e: Entry
      ensures multiset(Delivered(es, ok))[e] + multiset(Undelivered(es, ok))[e] == multiset(es[..|ok|])[e]
    {
      SentOrNotOne(es, ok, e);
    }
  }

  /** Said of the records delivered: they are what left the queue. */
  lemma {:induction false} RemainsMeansLeft(es: seq<Entry>, ok: seq<bool>)
    requires |ok| <= |es|
    ensures FailuresRemain(es, ok) <==> multiset(AfterReplay(es, ok)) + multiset(Delivered(es, ok)) == multiset(es)
  {
    hide AfterReplay, Delivered, Undelivered;
    SentOrNot(es, ok);
    assert es == es[..|ok|] + es[|ok|..];
    var left, failed, rest := multiset(AfterReplay(es, ok)), multiset(Undelivered(es, ok)), multiset(es[|ok|..]);
    Cancel(left, failed + rest, multiset(Delivered(es, ok)));
  }

  lemma {:induction false} Cancel(a: multiset<Entry>, b: multiset<Entry>, c: multiset<Entry>)
    ensures a == b <==> a + c == b + c
  {
    if a + c == b + c {
      forall e: Entry ensures a[e] == b[e] {
        assert (a + c)[e] == (b + c)[e];
      }
    }
  }

  lemma {:induction false} CopiesLeft(es: seq<Entry>, ok: seq<bool>, e: Entry)
    requires |ok| <= |es|
    ensures var d := OfId(Delivered(es, ok), e.id);
            && |d| <= |OfId(es, e.id)|
            && multiset(AfterReplay(es, ok))[e] + multiset(OfId(es, e.id)[..|d|])[e] == multiset(es)[e]
            && multiset(Delivered(es, ok))[e] == multiset(d)[e]
  {
    hide OfId, AfterReplay, Delivered;
    var all, d := OfId(es, e.id), OfId(Delivered(es, ok), e.id);
    ReplayTakesOldest(es, ok, e.id);
    OfIdCopies(AfterReplay(es, ok), e);
    OfIdCopies(Delivered(es, ok), e);
    OfIdCopies(es, e);
    assert all == all[..|d|] + all[|d|..];
  }

  /** Failures remain queued exactly when, for each id, the oldest records were the ones delivered. */
  lemma {:induction false} FailuresRemainExactly(es: seq<Entry>, ok: seq<bool>)
    requires |ok| <= |es|
    ensures FailuresRemain(es, ok) <==> OldestWereDelivered(es, ok)
  {
    hide OfId, AfterReplay, Delivered, FailuresRemain;
    RemainsMeansLeft(es, ok);
    if FailuresRemain(es, ok) {
      forall id ensures OldestOfId(es, ok, id) {
        RemainsOfId(es, ok, id);
      }
    }
    if OldestWereDelivered(es, ok) {
      OldestMeansRemains(es, ok);
    }
  }

  lemma {:induction false} OldestMeansRemains(es: seq<Entry>, ok: seq<bool>)
    requires |ok| <= |es| && OldestWereDelivered(es, ok)
    ensures multiset(AfterReplay(es, ok)) + multiset(Delivered(es, ok)) == multiset(es)
  {
    hide OfId, AfterReplay, Delivered;
    forall e: Entry
      ensures (multiset(AfterReplay(es, ok)) + multiset(Delivered(es, ok)))[e] == multiset(es)[e]
    {
      CopiesLeft(es, ok, e);
      assert OldestOfId(es, ok, e.id);
    }
  }

  lemma {:induction false} RemainsOfId(es: seq<Entry>, ok: seq<bool>, id: string)
    requires |ok| <= |es| && multiset(AfterReplay(es, ok)) + multiset(Delivered(es, ok)) == multiset(es)
    ensures OldestOfId(es, ok, id)
  {
    hide OfId, AfterReplay, Delivered;
    var d := OfId(Delivered(es, ok), id);
    ReplayTakesOldest(es, ok, id);
    var oldest := OfId(es, id)[..|d|];
    forall e: Entry ensures multiset(oldest)[e] == multiset(d)[e] {
      if e.id == id {
        CopiesLeft(es, ok, e);
        assert (multiset(AfterReplay(es, ok)) + multiset(Delivered(es, ok)))[e] == multiset(es)[e];
      } else {
        OfIdMembers(es, id);
        OfIdMembers(Delivered(es, ok), id);
        assert e !in oldest && e !in d;
      }
    }
  }

  /** No id has two different records. */
  predicate OneRecordPerId(es: seq<Entry>) {
    forall i, j :: 0 <= i < j < |es| && es[i].id == es[j].id ==> es[i] == es[j]
  }

  /** What a caller can look at before a replay of the first `n` entries: failures remain queued
      whatever the sends answer exactly if no id has two different records among those entries. */
  lemma {:induction false} SafeToReplay(es: seq<Entry>, n: nat)
    requires n <= |es|
    ensures (forall ok: seq<bool> :: |ok| == n ==> FailuresRemain(es, ok)) <==> OneRecordPerId(es[..n])
  {
    hide FailuresRemain;
    if OneRecordPerId(es[..n]) {
      forall ok: seq<bool> | |ok| == n ensures FailuresRemain(es, ok) {
        SameRecords(es, ok);
        FailuresRemainExactly(es, ok);
      }
    } else {
      var i, j :| 0 <= i < j < n && es[..n][i].id == es[..n][j].id && es[..n][i] != es[..n][j];
      var ok := UnsafeResults(es, n, i, j);
      assert !FailuresRemain(es, ok);
    }
  }

  lemma {:induction false} SameRecords(es: seq<Entry>, ok: seq<bool>)
    requires |ok| <= |es| && OneRecordPerId(es[..|ok|])
    ensures OldestWereDelivered(es, ok)
  {
    hide OfId, Delivered;
    forall id ensures OldestOfId(es, ok, id) {
      var d, oldest := OfId(Delivered(es, ok), id), OfId(es[..|ok|], id);
      ReplayTakesOldest(es, ok, id);
      OfIdMembers(es[..|ok|], id);
      OfIdMembers(Delivered(es, ok), id);
      DeliveredMembers(es, ok);
      assert OfId(es, id)[..|d|] == oldest[..|d|];
      forall k | 0 <= k < |d| ensures oldest[k] == d[k] {
        assert oldest[k] in es[..|ok|] && d[k] in Delivered(es, ok);
      }
      assert oldest[..|d|] == d;
    }
  }

  lemma {:induction false} DeliveredMembers(es: seq<Entry>, ok: seq<bool>)
    requires |ok| <= |es|
    ensures forall e :: e in Delivered(es, ok) ==> e in es[..|ok|]
  {
    if ok != [] {
      var n := |ok| - 1;
      DeliveredMembers(es, ok[..n]);
      assert es[..|ok|] == es[..n] + [es[n]];
    }
  }

  /** With only `es[k]` delivered, what leaves the queue is the oldest record of its id. */
  lemma {:induction false} OnlyOneDelivered(es: seq<Entry>, ok: seq<bool>, k: nat)
    requires |ok| <= |es| && forall i :: 0 <= i < |ok| ==> (ok[i] <==> i == k)
    ensures Delivered(es, ok) == if k < |ok| then [es[k]] else []
  {
    if ok != [] {
      OnlyOneDelivered(es, ok[..|ok| - 1], k);
    }
  }

  /** Results that lose a record of `es[i]` and `es[j]`: only the one that is not the oldest of its id
      is delivered. */
  lemma {:induction false} UnsafeResults(es: seq<Entry>, n: nat, i: nat, j: nat) returns (ok: seq<bool>)
    requires i < j < n <= |es| && es[i].id == es[j].id && es[i] != es[j]
    ensures |ok| == n && !FailuresRemain(es, ok)
  {
    hide Delivered, FailuresRemain;
    var id := es[i].id;
    OfIdMember(es, i);
    var oldest := OfId(es, id)[0];
    var k := if es[j] != oldest then j else i;
    ok := seq(n, p => p == k);
    OnlyOneDelivered(es, ok, k);
    OfIdOne(es[k], id);
    FailuresRemainExactly(es, ok);
    assert OfId(es, id)[..1] == [oldest];
    assert multiset([oldest])[oldest] == 1 && multiset([es[k]])[oldest] == 0;
    assert !OldestOfId(es, ok, id);
  }

  lemma {:induction false} OfIdMember(es: seq<Entry>, i: nat)
    requires i < |es|
    ensures |OfId(es, es[i].id)| > 0
  {
    if i > 0 {
      OfIdMember(es[1..], i - 1);
    }
  }

  // ---- Queues without equal records ----

  /** No entry is redelivered after an older one with the same id has failed. */
  predicate NoFailedTwin(es: seq<Entry>, ok: seq<bool>)
    requires |ok| <= |es|
  {
    forall i, j :: 0 <= j < i < |ok| && ok[i] && !ok[j] ==> es[i].id != es[j].id
  }

  lemma {:induction false} UndeliveredIds(es: seq<Entry>, ok: seq<bool>, id: string)
    requires |ok| <= |es|
    requires forall j :: 0 <= j < |ok| && !ok[j] ==> es[j].id != id
    ensures forall k :: 0 <= k < |Undelivered(es, ok)| ==> Undelivered(es, ok)[k].id != id
  {
    if ok != [] {
      UndeliveredIds(es, ok[..|ok| - 1], id);
    }
  }

  /** Without a failed twin the replay takes out what it delivered and leaves the rest in order. */
  lemma {:induction false} ReplayLeavesTheRest(es: seq<Entry>, ok: seq<bool>)
    requires |ok| <= |es| && NoFailedTwin(es, ok)
    ensures AfterReplay(es, ok) == Undelivered(es, ok) + es[|ok|..]
  {
    hide RemoveFirst;
    if ok == [] {
      assert es[0..] == es;
    } else {
      var n := |ok| - 1;
      var left, rest := Undelivered(es, ok[..n]), es[n + 1..];
      ReplayLeavesTheRest(es, ok[..n]);
      assert AfterReplay(es, ok[..n]) == left + [es[n]] + rest by {
        assert es[n..] == [es[n]] + rest;
      }
      if ok[n] {
        UndeliveredIds(es, ok[..n], es[n].id);
        RemoveMiddle(left, es[n], rest);
      }
    }
  }

  lemma {:induction false} RemoveMiddle(a: seq<Entry>, e: Entry, b: seq<Entry>)
    requires forall i :: 0 <= i < |a| ==> a[i].id != e.id
    ensures RemoveFirst(a + [e] + b, e.id) == a + b
  {
    var es := a + [e] + b;
    RemoveAtFirst(es, |a|);
    assert es[..|a|] == a && es[|a| + 1..] == b;
  }

  predicate DistinctEntries(es: seq<Entry>) {
    forall i, j :: 0 <= i < j < |es| ==> es[i] != es[j]
  }

  /** If all records differ, failures remain queued exactly when no entry is redelivered after an older
      one with the same id has failed. */
  lemma {:induction false} TwinsDecide(es: seq<Entry>, ok: seq<bool>)
    requires |ok| <= |es| && DistinctEntries(es)
    ensures FailuresRemain(es, ok) <==> NoFailedTwin(es, ok)
  {
    hide FailuresRemain;
    FailuresRemainExactly(es, ok);
    if NoFailedTwin(es, ok) {
      ReplayLeavesTheRest(es, ok);
      LeavesMeansRemains(es, ok);
    } else {
      var i, j :| 0 <= j < i < |ok| && ok[i] && !ok[j] && es[i].id == es[j].id;
      if OldestOfId(es, ok, es[i].id) {
        OlderWasDelivered(es, ok, j, i);
      }
    }
  }

  lemma {:induction false} LeavesMeansRemains(es: seq<Entry>, ok: seq<bool>)
    requires |ok| <= |es| && AfterReplay(es, ok) == Undelivered(es, ok) + es[|ok|..]
    ensures FailuresRemain(es, ok)
  {
  }

  lemma {:induction false} OfIdAt(es: seq<Entry>, i: nat)
    requires i < |es|
    ensures |OfId(es[..i], es[i].id)| < |OfId(es, es[i].id)|
    ensures OfId(es, es[i].id)[|OfId(es[..i], es[i].id)|] == es[i]
  {
    hide OfId;
    var id := es[i].id;
    assert es == es[..i] + ([es[i]] + es[i + 1..]);
    OfIdConcat(es[..i], [es[i]] + es[i + 1..], id);
    OfIdConcat([es[i]], es[i + 1..], id);
    OfIdOne(es[i], id);
  }

  lemma {:induction false} OfIdDistinct(es: seq<Entry>, id: string)
    requires DistinctEntries(es)
    ensures DistinctEntries(OfId(es, id))
  {
    if es != [] {
      OfIdDistinct(es[1..], id);
      OfIdMembers(es[1..], id);
    }
  }

  lemma {:induction false} DeliveredAre(es: seq<Entry>, ok: seq<bool>, i: nat)
    requires i < |ok| <= |es| && DistinctEntries(es)
    ensures es[i] in Delivered(es, ok) <==> ok[i]
  {
    var n := |ok| - 1;
    DeliveredMembers(es, ok[..n]);
    if i < n {
      DeliveredAre(es, ok[..n], i);
    }
  }

  /** Among different records of an id, none is delivered before all older ones are. */
  lemma {:induction false} OlderWasDelivered(es: seq<Entry>, ok: seq<bool>, j: nat, i: nat)
    requires j < i < |ok| <= |es| && DistinctEntries(es) && es[i].id == es[j].id && ok[i]
    requires OldestOfId(es, ok, es[i].id)
    ensures ok[j]
  {
    hide OfId, Delivered;
    var id := es[i].id;
    var all, d := OfId(es, id), OfId(Delivered(es, ok), id);
    DeliveredAre(es, ok, i);
    DeliveredAre(es, ok, j);
    OfIdCopies(Delivered(es, ok), es[i]);
    OfIdCopies(Delivered(es, ok), es[j]);
    OfIdAt(es, i);
    OfIdAt(es, j);
    OfIdDistinct(es, id);
    assert es[..i] == es[..j] + es[j..i];
    OfIdConcat(es[..j], es[j..i], id);
    OfIdMember(es[j..i], 0);
    var p, q := |OfId(es[..j], id)|, |OfId(es[..i], id)|;
    assert es[i] in multiset(d) && es[i] in multiset(all[..|d|]);
    var r :| 0 <= r < |d| && all[r] == es[i];
    assert r == q && p < q && all[..|d|][p] == es[j];
    assert es[j] in multiset(all[..|d|]);
  }

  /** Two failures of one event, of which only the second can be delivered: the first record is
      lost and the delivered one stays. */
  lemma {:induction false} FailedTwinExample()
    ensures var es := [Entry("e1", "first failure"), Entry("e1", "second failure")];
            AfterReplay(es, [false, true]) == [es[1]] && !FailuresRemain(es, [false, true])
  {
    var es := [Entry("e1", "first failure"), Entry("e1", "second failure")];
    assert [false, true][..1] == [false] && [false][..0] == [];
    assert AfterReplay(es, [false]) == es;
    assert Undelivered(es, [false, true]) == [es[0]];
    assert multiset([es[1]])[es[0]] == 0 && multiset([es[0]])[es[0]] == 1;
  }

  // ---- The loop ----

  /** The entries that were delivered and whose removal then failed. */
  function Lapses(results: seq<bool>, writes: seq<FileWrite>): nat
    requires |results| == |writes|
  {
    if results == [] then 0
    else
      var n := |results| - 1;
      Lapses(results[..n], writes[..n]) + if results[n] && writes[n].Failed? then 1 else 0
  }

  /** The file, after a replay that takes out what it delivers. */
  function FileAfter(encode: Entry -> string, es: seq<Entry>, file: string, results: seq<bool>, writes: seq<FileWrite>):
    string
    requires |writes| == |results| <= |es|
  {
    if results == [] then file
    else
      var n := |results| - 1;
      if results[n] then Rewritten(encode, AfterReplay(es, results), writes[n])
      else FileAfter(encode, es, file, results[..n], writes[..n])
  }

  /** The counts add up exactly if no entry was delivered whose removal failed. */
  lemma {:induction false} LapsesNone(results: seq<bool>, writes: seq<FileWrite>)
    requires |results| == |writes|
    ensures Lapses(results, writes) == 0 <==>
            forall i :: 0 <= i < |results| && results[i] ==> writes[i].Written?
  {
    if results != [] {
      var n := |results| - 1;
      LapsesNone(results[..n], writes[..n]);
      assert forall i :: 0 <= i < n ==> results[..n][i] == results[i] && writes[..n][i] == writes[i];
    }
  }

  /** Every rewrite is of the whole queue, so the last one decides what a restart finds. */
  lemma {:induction false} LastRewriteDecides(encode: Entry -> string, decode: string -> Option<Entry>, es: seq<Entry>,
                                              file: string, results: seq<bool>, writes: seq<FileWrite>, last: nat)
    requires CodecOk(encode, decode) && last < |writes| == |results| <= |es|
    requires results[last] && writes[last].Written? && forall i :: last < i < |results| ==> !results[i]
    ensures Load(decode, FileAfter(encode, es, file, results, writes)) == Some(AfterReplay(es, results))
  {
    hide CodecOk, Load, RemoveFirst;
    var n := |results| - 1;
    if last == n {
      LoadDump(encode, decode, AfterReplay(es, results));
    } else {
      LastRewriteDecides(encode, decode, es, file, results[..n], writes[..n], last);
    }
  }

  /** One entry, delivered, and a rewrite that fails and leaves the file alone: the entry counts as delivered
      and as failed, it is gone from the queue, and a restart brings it back. */
  lemma {:induction false} LapsedRewriteExample(encode: Entry -> string, decode: string -> Option<Entry>, e: Entry)
    requires CodecOk(encode, decode)
    ensures var es, file := [e], Dump(encode, [e]);
            && Load(decode, file) == Some(es) && Lapses([true], [Failed(file)]) == 1
            && AfterReplay(es, [true]) == []
            && Load(decode, FileAfter(encode, es, file, [true], [Failed(file)])) == Some(es)
  {
    hide CodecOk, Load;
    LoadDump(encode, decode, [e]);
    assert [true][..0] == [] && [Failed(Dump(encode, [e]))][..0] == [];
    assert AfterReplay([e], []) == [e];
  }

  /** The loop of the replay. `results[i]` is how the sending of the i-th entry tried ends, and `writes[i]`
      how the file is rewritten if that entry is taken out. An entry that was sent and whose removal throws
      counts as delivered and as failed. */
  method Replay(queue: FileDeadLetterQueue, results: seq<bool>, writes: seq<FileWrite>, dryRun: bool, limit: nat)
    returns (delivered: nat, failed: nat, attempted: nat)
    requires CodecOk(queue.encode, queue.decode)
    requires |results| == |writes| == Least(limit, |queue.entries|)
    modifies queue
    ensures attempted == |results| && delivered == |Delivered(old(queue.entries), results)|
    ensures delivered + failed == attempted + if dryRun then 0 else Lapses(results, writes)
    ensures queue.entries == if dryRun then old(queue.entries) else AfterReplay(old(queue.entries), results)
    ensures queue.file
            == if dryRun then old(queue.file)
               else FileAfter(queue.encode, old(queue.entries), old(queue.file), results, writes)
  {
    hide AfterReplay, Delivered, RemoveFirst, CodecOk, Load, Lapses, FileAfter;
    var all := queue.entries;
    var entries := all[..Least(limit, |all|)];
    delivered, failed, attempted := 0, 0, |entries|;
    ReplayStart(queue.encode, all, queue.file, results, writes);
    for i := 0 to |entries|
      invariant delivered == |Delivered(all, results[..i])|
      invariant delivered + failed == i + if dryRun then 0 else Lapses(results[..i], writes[..i])
      invariant queue.entries == if dryRun then all else AfterReplay(all, results[..i])
      invariant queue.file
                == if dryRun then old(queue.file)
                   else FileAfter(queue.encode, all, old(queue.file), results[..i], writes[..i])
    {
      ReplayStep(queue.encode, all, old(queue.file), results, writes, i);
      if results[i] {
        delivered := delivered + 1;
        if !dryRun {
          Redelivered(all, results[..i]);
          var removal := queue.Remove(entries[i].id, writes[i]);
          if removal.Threw? {
            failed := failed + 1;
          }
        }
      } else {
        failed := failed + 1;
      }
    }
    assert results[..|entries|] == results && writes[..|entries|] == writes;
  }

  lemma {:induction false} ReplayStart(encode: Entry -> string, es: seq<Entry>, file: string, results: seq<bool>,
                                       writes: seq<FileWrite>)
    ensures AfterReplay(es, results[..0]) == es && Delivered(es, results[..0]) == []
    ensures Lapses(results[..0], writes[..0]) == 0 && FileAfter(encode, es, file, results[..0], writes[..0]) == file
  {
  }

  lemma {:induction false} ReplayStep(encode: Entry -> string, es: seq<Entry>, file: string, results: seq<bool>,
                                      writes: seq<FileWrite>, i: nat)
    requires i < |writes| == |results| <= |es|
    ensures var before, after := AfterReplay(es, results[..i]), AfterReplay(es, results[..i + 1]);
            && after == (if results[i] then RemoveFirst(before, es[i].id) else before)
            && FileAfter(encode, es, file, results[..i + 1], writes[..i + 1])
               == if results[i] then Rewritten(encode, after, writes[i])
                  else FileAfter(encode, es, file, results[..i], writes[..i])
    ensures |Delivered(es, results[..i + 1])| == |Delivered(es, results[..i])| + if results[i] then 1 else 0
    ensures Lapses(results[..i + 1], writes[..i + 1])
            == Lapses(results[..i], writes[..i]) + if results[i] && writes[i].Failed? then 1 else 0
  {
    hide RemoveFirst, Rewritten;
    assert results[..i + 1][..i] == results[..i] && writes[..i + 1][..i] == writes[..i];
  }

  lemma {:induction false} Redelivered(es: seq<Entry>, ok: seq<bool>)
    requires |ok| < |es|
    ensures exists e :: e in AfterReplay(es, ok) && e.id == es[|ok|].id
  {
    hide OfId, AfterReplay;
    var id, left := es[|ok|].id, AfterReplay(es, ok);
    ReplayTakesOldest(es, ok, id);
    OfIdAt(es, |ok|);
    OfIdMembers(left, id);
    var d := |OfId(Delivered(es, ok), id)|;
    assert OfId(left, id) == OfId(es, id)[d..] != [];
    assert OfId(left, id)[0] in left;
  }
}
