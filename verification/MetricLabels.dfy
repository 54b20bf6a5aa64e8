/** The control plane's text for metric labels: the key that tells series apart, and the escape of label values in the
    Prometheus text format. */
module MetricLabels {
  // ----- Label keys -----

  datatype Label = Label(name: string, value: string)

  /** The order in which names are sorted. */
  predicate Less(a: string, b: string) {
    if b == "" then false
    else if a == "" then true
    else if a[0] != b[0] then a[0] < b[0]
    else Less(a[1..], b[1..])
  }

  predicate PlainName(name: string) { '=' !in name && ';' !in name }

  /** A label set is the list of its labels, sorted by name, each name once. */
  ghost predicate LabelSet(labels: seq<Label>) {
    && (forall i | 0 <= i < |labels| :: PlainName(labels[i].name))
    && forall i, j | 0 <= i < j < |labels| :: Less(labels[i].name, labels[j].name)
  }

  function Piece(l: Label): string { l.name + "=" + l.value + ";" }

  function LabelsKey(labels: seq<Label>): string {
    if labels == [] then ""
    else LabelsKey(labels[..|labels| - 1]) + Piece(labels[|labels| - 1])
  }

  /** The string builder loop. */
  method BuildLabelsKey(labels: seq<Label>) returns (key: string)
    ensures key == LabelsKey(labels)
  {
    key := "";
    for i := 0 to |labels|
      invariant key == LabelsKey(labels[..i])
    {
      assert labels[..i + 1][..i] == labels[..i];
      key := key + (labels[i].name + "=" + labels[i].value + ";");
    }
    assert labels[..|labels|] == labels;
  }

  lemma MarkInside(a: string, b: string, c: string, d: string, mark: char)
    requires a + [mark] + b == c + [mark] + d && |a| < |c|
    ensures mark in c
  {
    assert c[|a|] == (c + [mark] + d)[|a|] == (a + [mark] + b)[|a|] == mark;
  }

  lemma SplitAtFirst(a: string, b: string, c: string, d: string, mark: char)
    requires mark !in a && mark !in c && a + [mark] + b == c + [mark] + d
    ensures a == c && b == d
  {
    if |a| < |c| { MarkInside(a, b, c, d, mark); }
    if |c| < |a| { MarkInside(c, d, a, b, mark); }
    var s := a + [mark] + b;
    assert s[..|a|] == a && s[..|c|] == c && s[|a| + 1..] == b && s[|c| + 1..] == d;
  }

  // ----- Values without ';' -----

  /** Names without '=' and ';', values without ';'. */
  ghost predicate Plain(labels: seq<Label>) {
    forall i | 0 <= i < |labels| :: PlainName(labels[i].name) && ';' !in labels[i].value
  }

  predicate Whole(key: string) { key == "" || key[|key| - 1] == ';' }

  lemma EndInside(ka: string, u: string, kb: string, w: string)
    requires Whole(kb) && ka + u == kb + w && |ka| < |kb|
    ensures ';' in u
  {
    assert u[|kb| - 1 - |ka|] == (ka + u)[|kb| - 1] == (kb + w)[|kb| - 1] == kb[|kb| - 1];
  }

  lemma SplitKey(ka: string, u: string, kb: string, w: string)
    requires Whole(ka) && Whole(kb) && ';' !in u && ';' !in w && ka + u == kb + w
    ensures ka == kb && u == w
  {
    if |ka| < |kb| { EndInside(ka, u, kb, w); }
    if |kb| < |ka| { EndInside(kb, w, ka, u); }
    var s := ka + u;
    assert s[..|ka|] == ka && s[..|kb|] == kb && s[|ka|..] == u && s[|kb|..] == w;
  }

  lemma LastLabel(ka: string, x: Label, kb: string, y: Label)
    requires Whole(ka) && Whole(kb) && Plain([x]) && Plain([y])
    requires ka + Piece(x) == kb + Piece(y)
    ensures ka == kb && x == y
  {
    assert [x][0] == x && [y][0] == y;
    var u, w := x.name + "=" + x.value, y.name + "=" + y.value;
    SplitOff(ka, u, kb, w);
    SplitKey(ka, u, kb, w);
    SplitAtFirst(x.name, x.value, y.name, y.value, '=');
  }

  lemma SplitOff(ka: string, u: string, kb: string, w: string)
    requires ka + (u + ";") == kb + (w + ";")
    ensures ka + u == kb + w
  {
    assert (ka + (u + ";"))[..|ka| + |u|] == ka + u;
    assert (kb + (w + ";"))[..|kb| + |w|] == kb + w;
  }

  lemma KeyEnds(labels: seq<Label>)
    requires labels != []
    ensures LabelsKey(labels) != "" && Whole(LabelsKey(labels))
  {
  }

  /** Plain label sets share a key only if they are the same. */
  lemma {:induction false} PlainKeysDiffer(a: seq<Label>, b: seq<Label>)
    requires Plain(a) && Plain(b) && LabelsKey(a) == LabelsKey(b)
    ensures a == b
  {
    if a == [] || b == [] {
      if a != [] { KeyEnds(a); }
      if b != [] { KeyEnds(b); }
    } else {
      var a', x, b', y := a[..|a| - 1], a[|a| - 1], b[..|b| - 1], b[|b| - 1];
      LastLabel(LabelsKey(a'), x, LabelsKey(b'), y);
      if a' != [] { KeyEnds(a'); }
      if b' != [] { KeyEnds(b'); }
      PlainKeysDiffer(a', b');
      assert a == a' + [x] && b == b' + [y];
    }
  }

  // ----- Any values -----

  lemma {:induction false} KeyCons(x: Label, rest: seq<Label>)
    ensures LabelsKey([x] + rest) == Piece(x) + LabelsKey(rest)
  {
    var all := [x] + rest;
    if rest == [] {
      assert all == [x] && [x][..0] == [];
    } else {
      var front := rest[..|rest| - 1];
      assert all[..|all| - 1] == [x] + front;
      KeyCons(x, front);
      assert LabelsKey(all) == Piece(x) + LabelsKey(front) + Piece(rest[|rest| - 1]);
    }
  }

  /** The value up to some ';' passes for the label's own, what follows for a further label that sorts behind it. */
  predicate SplitsAt(l: Label, i: nat, j: nat) {
    && i < j < |l.value| && l.value[i] == ';' && l.value[j] == '='
    && PlainName(l.value[i + 1..j]) && Less(l.name, l.value[i + 1..j])
  }

  ghost predicate Splits(l: Label) { exists i: nat, j: nat :: SplitsAt(l, i, j) }

  /** Another label set with the same key. */
  ghost predicate Twin(a: seq<Label>, b: seq<Label>) { LabelSet(b) && b != a && LabelsKey(b) == LabelsKey(a) }

  /** Two labels or more pass for one whose value holds the rest. */
  lemma MergedTwin(a: seq<Label>) returns (b: seq<Label>)
    requires LabelSet(a) && |a| >= 2
    ensures Twin(a, b)
  {
    var x, rest := a[0], LabelsKey(a[1..]);
    assert a == [x] + a[1..];
    KeyCons(x, a[1..]);
    KeyEnds(a[1..]);
    var merged := Label(x.name, x.value + ";" + rest[..|rest| - 1]);
    b := [merged];
    assert b[..0] == [];
    assert rest == rest[..|rest| - 1] + ";";
    assert LabelsKey(b) == "" + Piece(merged);
    assert Piece(merged) == Piece(x) + rest;
  }

  /** One label whose value splits passes for two. */
  lemma SplitTwin(l: Label, i: nat, j: nat) returns (b: seq<Label>)
    requires PlainName(l.name) && SplitsAt(l, i, j)
    ensures Twin([l], b)
  {
    var x, y := Label(l.name, l.value[..i]), Label(l.value[i + 1..j], l.value[j + 1..]);
    b := [x, y];
    OneKey(l);
    TwoKeys(x, y);
    SplitPieces(l.name, l.value, i, j);
  }

  lemma OneKey(l: Label)
    ensures LabelsKey([l]) == Piece(l)
  {
    KeyCons(l, []);
    assert [l] == [l] + [];
  }

  lemma TwoKeys(x: Label, y: Label)
    ensures LabelsKey([x, y]) == Piece(x) + Piece(y)
  {
    KeyCons(x, [y]);
    OneKey(y);
    assert [x, y] == [x] + [y];
  }

  lemma SplitPieces(name: string, v: string, i: nat, j: nat)
    requires i < j < |v| && v[i] == ';' && v[j] == '='
    ensures name + "=" + v + ";" == (name + "=" + v[..i] + ";") + (v[i + 1..j] + "=" + v[j + 1..] + ";")
  {
    SplitText(v, i, j);
  }

  lemma SplitText(v: string, i: nat, j: nat)
    requires i < j < |v| && v[i] == ';' && v[j] == '='
    ensures v == v[..i] + ";" + v[i + 1..j] + "=" + v[j + 1..]
  {
  }

  /** What the key of several labels holds behind the first name. */
  lemma SeveralLabels(b: seq<Label>) returns (tail: string)
    requires |b| >= 2
    ensures LabelsKey(b) == b[0].name + "=" + (b[0].value + ";" + b[1].name + "=" + tail) + ";"
  {
    var rest := LabelsKey(b[2..]);
    assert b == [b[0]] + b[1..] && b[1..] == [b[1]] + b[2..];
    KeyCons(b[0], b[1..]);
    KeyCons(b[1], b[2..]);
    if b[2..] != [] { KeyEnds(b[2..]); }
    tail := LastMark(b[1].value, rest);
    Regroup(b[0], b[1], rest, tail);
  }

  lemma LastMark(value: string, rest: string) returns (tail: string)
    requires Whole(rest)
    ensures value + ";" + rest == tail + ";"
  {
    var all := value + ";" + rest;
    assert all[|all| - 1] == ';';
    tail := all[..|all| - 1];
  }

  lemma Regroup(x: Label, y: Label, rest: string, tail: string)
    requires y.value + ";" + rest == tail + ";"
    ensures Piece(x) + (Piece(y) + rest) == x.name + "=" + (x.value + ";" + y.name + "=" + tail) + ";"
  {
    assert Piece(y) + rest == y.name + "=" + (y.value + ";" + rest);
  }

  lemma OneLabel(l: Label)
    ensures LabelsKey([l]) == l.name + "=" + l.value + ";"
  {
    assert [l][..0] == [];
    assert LabelsKey([l]) == "" + Piece(l);
  }

  /** A twin of one label splits its value. */
  lemma TwinOfOne(l: Label, b: seq<Label>)
    requires PlainName(l.name) && Twin([l], b)
    ensures Splits(l)
  {
    OneLabel(l);
    if |b| == 1 {
      assert b == [b[0]];
      OneLabel(b[0]);
      SameLabel(l, b[0].name, b[0].value);
    } else {
      var tail := SeveralLabels(b);
      var v := b[0].value + ";" + b[1].name + "=" + tail;
      SameLabel(l, b[0].name, v);
      var i, j := |b[0].value|, |b[0].value| + 1 + |b[1].name|;
      assert v[i] == ';' && v[j] == '=' && v[i + 1..j] == b[1].name;
      assert SplitsAt(l, i, j);
    }
  }

  lemma SameLabel(l: Label, name: string, value: string)
    requires PlainName(l.name) && PlainName(name) && l.name + "=" + l.value + ";" == name + "=" + value + ";"
    ensures l.name == name && l.value == value
  {
    var s, t := l.name + "=" + l.value, name + "=" + value;
    assert s == (s + ";")[..|s|] && t == (t + ";")[..|t|];
    SplitAtFirst(l.name, l.value, name, value, '=');
  }

  /** A label set shares its key with another one if and only if it has two labels or more, or one whose value holds a
      ';' and then, behind a name that sorts later, an '='. */
  lemma SharedKeyExactly(a: seq<Label>)
    requires LabelSet(a)
    ensures (exists b :: Twin(a, b)) <==> |a| >= 2 || (|a| == 1 && Splits(a[0]))
  {
    if |a| >= 2 {
      var b := MergedTwin(a);
    } else if |a| == 1 {
      assert a == [a[0]];
      if Splits(a[0]) {
        var i: nat, j: nat :| SplitsAt(a[0], i, j);
        var b := SplitTwin(a[0], i, j);
      }
      forall b | Twin(a, b) ensures Splits(a[0]) { TwinOfOne(a[0], b); }
    } else {
      forall b ensures !Twin(a, b) { if b != [] { KeyEnds(b); } }
    }
  }

  // ----- Escaping -----

  /** Replaces every `c` in the text. */
  function ReplaceAll(s: string, c: char, with: string): string {
    if s == "" then "" else (if s[0] == c then with else [s[0]]) + ReplaceAll(s[1..], c, with)
  }

  /** Three passes over the value, in this order. */
  function EscapeLabel(v: string): string {
    ReplaceAll(ReplaceAll(ReplaceAll(v, '\\', "\\\\"), '\n', "\\n"), '"', "\\\"")
  }

  function EscapeChar(c: char): string {
    if c == '\\' then "\\\\" else if c == '\n' then "\\n" else if c == '"' then "\\\"" else [c]
  }

  /** How a reader of the text format undoes the escapes. */
  function Unescape(s: string): string {
    if s == "" then ""
    else if s[0] == '\\' && |s| > 1 then [if s[1] == 'n' then '\n' else s[1]] + Unescape(s[2..])
    else [s[0]] + Unescape(s[1..])
  }

  lemma {:induction false} ReplaceAllAppend(a: string, b: string, c: char, with: string)
    ensures ReplaceAll(a + b, c, with) == ReplaceAll(a, c, with) + ReplaceAll(b, c, with)
  {
    if a == "" {
      assert a + b == b;
    } else {
      assert (a + b)[1..] == a[1..] + b;
      ReplaceAllAppend(a[1..], b, c, with);
    }
  }

  lemma ReplaceOne(x: char, c: char, with: string)
    ensures ReplaceAll([x], c, with) == if x == c then with else [x]
  {
    assert [x][1..] == "";
  }

  lemma ReplaceTwo(x: char, y: char, c: char, with: string)
    requires x != c && y != c
    ensures ReplaceAll([x, y], c, with) == [x, y]
  {
    ReplaceAllAppend([x], [y], c, with);
    ReplaceOne(x, c, with);
    ReplaceOne(y, c, with);
    assert [x] + [y] == [x, y];
  }

  /** The passes do not disturb one another: a character comes out escaped by exactly its own pass. */
  lemma EscapeOne(c: char)
    ensures EscapeLabel([c]) == EscapeChar(c)
  {
    ReplaceOne(c, '\\', "\\\\");
    ReplaceOne(c, '\n', "\\n");
    ReplaceOne(c, '"', "\\\"");
    ReplaceTwo('\\', '\\', '\n', "\\n");
    ReplaceTwo('\\', '\\', '"', "\\\"");
    ReplaceTwo('\\', 'n', '"', "\\\"");
  }

  lemma EscapeCons(c: char, rest: string)
    ensures EscapeLabel([c] + rest) == EscapeChar(c) + EscapeLabel(rest)
  {
    var p1, q1 := ReplaceAll([c], '\\', "\\\\"), ReplaceAll(rest, '\\', "\\\\");
    ReplaceAllAppend([c], rest, '\\', "\\\\");
    ReplaceAllAppend(p1, q1, '\n', "\\n");
    ReplaceAllAppend(ReplaceAll(p1, '\n', "\\n"), ReplaceAll(q1, '\n', "\\n"), '"', "\\\"");
    EscapeOne(c);
  }

  /** Reading an escaped value back gives the value. */
  lemma {:induction false} UnescapeUndoesEscape(v: string)
    ensures Unescape(EscapeLabel(v)) == v
  {
    if v != "" {
      var c, rest := v[0], v[1..];
      assert v == [c] + rest;
      EscapeCons(c, rest);
      UnescapeUndoesEscape(rest);
      UnescapeCons(c, EscapeLabel(rest));
    }
  }

  lemma UnescapeCons(c: char, text: string)
    ensures Unescape(EscapeChar(c) + text) == [c] + Unescape(text)
  {
    var s := EscapeChar(c) + text;
    if |EscapeChar(c)| == 1 { assert s[1..] == text; } else { assert s[2..] == text; }
  }
}
