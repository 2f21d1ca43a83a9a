/** Escaping of label values in the Prometheus text format. */
module LabelEscape {
  /** A global replace of one character by a string. */
  function ReplaceAll(s: string, c: char, rep: string): string {
    if s == "" then "" else (if s[0] == c then rep else [s[0]]) + ReplaceAll(s[1..], c, rep)
  }

  function EscapeLabelValue(value: string): string {
    ReplaceAll(ReplaceAll(ReplaceAll(value, '\\', "\\\\"), '\n', "\\n"), '"', "\\\"")
  }

  /** What one character becomes. */
  function EscapeChar(c: char): string {
    if c == '\\' then "\\\\" else if c == '\n' then "\\n" else if c == '"' then "\\\"" else [c]
  }

  function EscapeOnce(value: string): string {
    if value == "" then "" else EscapeChar(value[0]) + EscapeOnce(value[1..])
  }

  /** A reader of the format, from left to right: a backslash takes the next character with it. */
  function Unescape(s: string): string
    decreases |s|
  {
    if s == "" then ""
    else if s[0] == '\\' && |s| > 1 then [if s[1] == 'n' then '\n' else s[1]] + Unescape(s[2..])
    else [s[0]] + Unescape(s[1..])
  }

  lemma {:induction false} ReplaceConcat(a: string, b: string, c: char, rep: string)
    ensures ReplaceAll(a + b, c, rep) == ReplaceAll(a, c, rep) + ReplaceAll(b, c, rep)
  {
    if a == "" {
      assert a + b == b;
    } else {
      assert (a + b)[1..] == a[1..] + b;
      ReplaceConcat(a[1..], b, c, rep);
    }
  }

  /** The three passes come to one: no later pass touches what an earlier one has written. */
  lemma {:induction false} PassesAreOne(value: string)
    ensures EscapeLabelValue(value) == EscapeOnce(value)
  {
    if value != "" {
      var head := [value[0]];
      PassesAreOne(value[1..]);
      assert value == head + value[1..];
      var a := ReplaceAll(head, '\\', "\\\\");
      var b := ReplaceAll(a, '\n', "\\n");
      ReplaceConcat(head, value[1..], '\\', "\\\\");
      ReplaceConcat(a, ReplaceAll(value[1..], '\\', "\\\\"), '\n', "\\n");
      ReplaceConcat(b, ReplaceAll(ReplaceAll(value[1..], '\\', "\\\\"), '\n', "\\n"), '"', "\\\"");
      PassesOnChar(value[0]);
    }
  }

  lemma {:induction false} ReplaceOne(x: char, c: char, rep: string)
    ensures ReplaceAll([x], c, rep) == if x == c then rep else [x]
  {
    assert rep + "" == rep;
  }

  lemma {:induction false} ReplaceNone(x: char, y: char, c: char, rep: string)
    requires x != c && y != c
    ensures ReplaceAll([x, y], c, rep) == [x, y]
  {
    assert [x, y][1..] == [y];
    ReplaceOne(y, c, rep);
  }

  lemma {:induction false} PassesOnChar(c: char)
    ensures EscapeLabelValue([c]) == EscapeChar(c)
  {
    hide ReplaceAll;
    ReplaceOne(c, '\\', "\\\\");
    ReplaceOne(c, '\n', "\\n");
    ReplaceOne(c, '"', "\\\"");
    ReplaceNone('\\', '\\', '\n', "\\n");
    ReplaceNone('\\', '\\', '"', "\\\"");
    ReplaceNone('\\', 'n', '"', "\\\"");
    assert "\\\\" == ['\\', '\\'] && "\\n" == ['\\', 'n'];
  }

  /** A backslash, a line feed and a quote become two characters each, any other one stays, and the parts of a
      value are escaped one by one. */
  lemma {:induction false} EscapesEachCharacter(a: string, c: char)
    ensures EscapeLabelValue(a + [c])
            == EscapeLabelValue(a) + (if c == '\\' then ['\\', '\\']
                                      else if c == '\n' then ['\\', 'n']
                                      else if c == '"' then ['\\', '"']
                                      else [c])
    ensures EscapeLabelValue("") == ""
  {
    hide ReplaceAll;
    var b := ReplaceAll(a, '\\', "\\\\");
    var d := ReplaceAll([c], '\\', "\\\\");
    ReplaceConcat(a, [c], '\\', "\\\\");
    ReplaceConcat(b, d, '\n', "\\n");
    ReplaceConcat(ReplaceAll(b, '\n', "\\n"), ReplaceAll(d, '\n', "\\n"), '"', "\\\"");
    PassesOnChar(c);
    ReplaceEmpty();
  }

  lemma {:induction false} ReplaceEmpty()
    ensures forall c, rep :: ReplaceAll("", c, rep) == ""
  {
  }

  /** Every value is read back from its escaped form. */
  lemma {:induction false} UnescapeInverts(value: string)
    ensures Unescape(EscapeLabelValue(value)) == value
  {
    PassesAreOne(value);
    if value != "" {
      PassesAreOne(value[1..]);
      UnescapeInverts(value[1..]);
      var tail := EscapeOnce(value[1..]);
      var s := EscapeChar(value[0]) + tail;
      assert |EscapeChar(value[0])| == 1 ==> s[1..] == tail;
      assert |EscapeChar(value[0])| == 2 ==> s[2..] == tail;
    }
  }

  /** Inside quotes the escaped value ends neither the label nor the line: it has no line feed, and
      every quote stands behind an escaping backslash. */
  predicate Contained(s: string)
    decreases |s|
  {
    s == "" ||
    if s[0] == '\\' then |s| > 1 && s[1] != '\n' && Contained(s[2..])
    else s[0] != '"' && s[0] != '\n' && Contained(s[1..])
  }

  lemma {:induction false} EscapedIsContained(value: string)
    ensures Contained(EscapeLabelValue(value))
  {
    PassesAreOne(value);
    if value != "" {
      PassesAreOne(value[1..]);
      EscapedIsContained(value[1..]);
      var tail := EscapeOnce(value[1..]);
      var s := EscapeChar(value[0]) + tail;
      assert |EscapeChar(value[0])| == 1 ==> s[1..] == tail;
      assert |EscapeChar(value[0])| == 2 ==> s[2..] == tail;
    }
  }
}
