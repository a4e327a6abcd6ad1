/** The swipe extension's popup (`popup.js`): which page the tab shows,
    the like/dislike counts, the liked books it exports and the CSV it
    builds from them. Storage, the clipboard and the download are left
    out; what they would read is given as a `Store`. */
module SwipePopup {
  import opened Base
  import opened JsObject
  import SwipeContent
  import PageText

  // ---------------------------------------------------------------------
  // Field text: `replace(/\n/g, ' ').replace(/\s+/g, ' ').trim()`

  /** `replace(/\n/g, ' ')`. */
  function ReplaceNewlines(s: string): (r: string)
    ensures |r| == |s|
    ensures forall i :: 0 <= i < |s| ==> r[i] == (if s[i] == '\n' then ' ' else s[i])
  {
    if s == [] then [] else [if s[0] == '\n' then ' ' else s[0]] + ReplaceNewlines(s[1..])
  }

  /** `replace(/\s+/g, ' ')`: each maximal run of whitespace becomes one
      space. */
  function CollapseSpaces(s: string): (r: string)
    ensures |r| <= |s|
    decreases |s|
  {
    if s == [] then []
    else if IsJsSpace(s[0]) then [' '] + CollapseSpaces(TrimStart(s))
    else [s[0]] + CollapseSpaces(s[1..])
  }

  /** The text of a field before quoting. */
  function NormalizeText(s: string): string {
    Trim(CollapseSpaces(ReplaceNewlines(s)))
  }

  /** What the normalisation promises: the only whitespace left is single
      spaces between other characters. */
  predicate Normalized(t: string) {
    && (forall i :: 0 <= i < |t| && IsJsSpace(t[i]) ==> t[i] == ' ')
    && (forall i :: 0 <= i < |t| - 1 && t[i] == ' ' ==> t[i + 1] != ' ')
    && (t != [] ==> t[0] != ' ' && t[|t| - 1] != ' ')
  }

  /** The characters that are not whitespace, in order. */
  function Visible(s: string): (r: string)
    ensures forall i :: 0 <= i < |r| ==> !IsJsSpace(r[i])
  {
    if s == [] then [] else (if IsJsSpace(s[0]) then [] else [s[0]]) + Visible(s[1..])
  }

  lemma {:induction false} VisibleAppend(a: string, b: string)
    ensures Visible(a + b) == Visible(a) + Visible(b)
  {
    if a == [] {
      assert a + b == b;
    } else {
      assert (a + b)[0] == a[0] && (a + b)[1..] == a[1..] + b;
      VisibleAppend(a[1..], b);
    }
  }

  /** A string of whitespace shows nothing. */
  lemma {:induction false} VisibleOfSpaces(s: string)
    requires forall i :: 0 <= i < |s| ==> IsJsSpace(s[i])
    ensures Visible(s) == []
  {
    if s != [] {
      VisibleOfSpaces(s[1..]);
    }
  }

  /** Collapsing output: whitespace only as single spaces. */
  predicate SingleSpaced(t: string) {
    && (forall i :: 0 <= i < |t| && IsJsSpace(t[i]) ==> t[i] == ' ')
    && (forall i :: 0 <= i < |t| - 1 && t[i] == ' ' ==> t[i + 1] != ' ')
  }

  /** Collapsing keeps every visible character. */
  lemma {:induction false} CollapseVisible(s: string)
    ensures Visible(CollapseSpaces(s)) == Visible(s)
    decreases |s|
  {
    if s != [] {
      if IsJsSpace(s[0]) {
        var t := TrimStart(s);
        CollapseVisible(t);
        TrimStartVisible(s);
        assert ([' '] + CollapseSpaces(t))[1..] == CollapseSpaces(t);
      } else {
        CollapseVisible(s[1..]);
        assert ([s[0]] + CollapseSpaces(s[1..]))[1..] == CollapseSpaces(s[1..]);
      }
    }
  }

  /** Collapsing starts with a space only where the input starts with
      whitespace. */
  lemma CollapseStart(s: string)
    ensures CollapseSpaces(s) != [] && CollapseSpaces(s)[0] == ' ' ==> IsJsSpace(s[0])
  {
  }

  /** Collapsing leaves whitespace only as single spaces. */
  lemma {:induction false} CollapseSpacing(s: string)
    ensures SingleSpaced(CollapseSpaces(s))
    decreases |s|
  {
    if s != [] {
      var r := CollapseSpaces(s);
      if IsJsSpace(s[0]) {
        var t := TrimStart(s);
        CollapseSpacing(t);
        CollapseStart(t);
        var c := CollapseSpaces(t);
        assert r == [' '] + c;
        assert c != [] ==> c[0] != ' ';
        assert forall i :: 1 <= i < |r| ==> r[i] == c[i - 1];
      } else {
        CollapseSpacing(s[1..]);
        var c := CollapseSpaces(s[1..]);
        assert r == [s[0]] + c;
        assert forall i :: 1 <= i < |r| ==> r[i] == c[i - 1];
      }
    }
  }

  lemma TrimStartVisible(s: string)
    ensures Visible(TrimStart(s)) == Visible(s)
  {
    var t := TrimStart(s);
    var a := |s| - |t|;
    assert s == s[..a] + t;
    VisibleAppend(s[..a], t);
    VisibleOfSpaces(s[..a]);
  }

  lemma TrimEndVisible(s: string)
    ensures Visible(TrimEnd(s)) == Visible(s)
  {
    var r := TrimEnd(s);
    assert s == r + s[|r|..];
    VisibleAppend(r, s[|r|..]);
    VisibleOfSpaces(s[|r|..]);
  }

  /** Trimming removes only whitespace. */
  lemma TrimVisible(s: string)
    ensures Visible(Trim(s)) == Visible(s)
  {
    TrimStartVisible(s);
    TrimEndVisible(TrimStart(s));
  }

  lemma SingleSpacedSlice(s: string, i: nat, j: nat)
    requires SingleSpaced(s) && i <= j <= |s|
    ensures SingleSpaced(s[i..j])
  {
    assert forall k :: 0 <= k < j - i ==> s[i..j][k] == s[i + k];
  }

  /** Trimming single-spaced text leaves normalised text. */
  lemma TrimNormalizes(s: string)
    requires SingleSpaced(s)
    ensures Normalized(Trim(s))
  {
    var t := TrimStart(s);
    SingleSpacedSlice(s, |s| - |t|, |s|);
    SingleSpacedSlice(t, 0, |TrimEnd(t)|);
  }

  lemma {:induction false} ReplaceNewlinesFacts(s: string)
    ensures Visible(ReplaceNewlines(s)) == Visible(s)
    ensures '\n' !in ReplaceNewlines(s)
  {
    if s != [] {
      ReplaceNewlinesFacts(s[1..]);
      assert ReplaceNewlines(s)[1..] == ReplaceNewlines(s[1..]);
    }
  }

  /** The field text is normalised, keeps every visible character in
      order, and holds no line break; so the `includes('\n')` test that
      follows can never succeed. */
  lemma NormalizeFacts(s: string)
    ensures Normalized(NormalizeText(s))
    ensures Visible(NormalizeText(s)) == Visible(s)
    ensures '\n' !in NormalizeText(s)
  {
    ReplaceNewlinesFacts(s);
    CollapseVisible(ReplaceNewlines(s));
    CollapseSpacing(ReplaceNewlines(s));
    TrimVisible(CollapseSpaces(ReplaceNewlines(s)));
    TrimNormalizes(CollapseSpaces(ReplaceNewlines(s)));
    var t := NormalizeText(s);
    forall i | 0 <= i < |t|
      ensures t[i] != '\n'
    {
      assert IsJsSpace(t[i]) ==> t[i] == ' ';
    }
  }

  /** Single-spaced text has nothing to collapse. */
  lemma {:induction false} CollapseSingleSpaced(t: string)
    requires SingleSpaced(t)
    ensures CollapseSpaces(t) == t
    decreases |t|
  {
    if t != [] {
      assert SingleSpaced(t[1..]);
      CollapseSingleSpaced(t[1..]);
      if IsJsSpace(t[0]) {
        assert TrimStart(t[1..]) == t[1..];
      }
    }
  }

  /** Normalising is idempotent: normalised text is its own field text. */
  lemma NormalizeIdempotent(s: string)
    ensures NormalizeText(NormalizeText(s)) == NormalizeText(s)
  {
    var t := NormalizeText(s);
    NormalizeFacts(s);
    assert ReplaceNewlines(t) == t;
    CollapseSingleSpaced(t);
    assert TrimStart(t) == t;
    assert TrimEnd(t) == t;
  }

  // ---------------------------------------------------------------------
  // escapeCsvField

  /** `replace(/"/g, '""')`. */
  function DoubleQuotes(s: string): (r: string)
    ensures '\n' !in s ==> '\n' !in r
  {
    if s == [] then [] else (if s[0] == '"' then "\"\"" else [s[0]]) + DoubleQuotes(s[1..])
  }

  predicate NeedsQuotes(t: string) {
    ',' in t || '"' in t || '\n' in t
  }

  /** The quoting step of `escapeCsvField`. */
  function EscapeText(t: string): string {
    if NeedsQuotes(t) then "\"" + DoubleQuotes(t) + "\"" else t
  }

  /** The text a stored value contributes: its normalised text when it is
      a string, nothing otherwise (`value || ''` turns `undefined` and
      falsy values into `''`, and other non-strings are dropped). */
  function FieldText(v: SwipeContent.JsValue): string {
    if v.Str? then NormalizeText(v.s) else ""
  }

  /** `escapeCsvField(value || '')`. */
  function EscapeCsvField(v: SwipeContent.JsValue): (r: string)
    ensures !v.Str? ==> r == ""
    ensures r == EscapeText(FieldText(v))
    ensures '\n' !in r
  {
    match v
    case Str(s) =>
      NormalizeFacts(s);
      var t := NormalizeText(s);
      if ',' in t || '"' in t || '\n' in t then "\"" + DoubleQuotes(t) + "\"" else t
    case _ => ""
  }

  // ---------------------------------------------------------------------
  // Reading a line back

  /** The body of a quoted field, up to its closing quote: the field and
      what follows the quote, or `None` when the quote is never closed. */
  function ReadQuoted(s: string): (r: Option<(string, string)>)
    ensures r.Some? ==> |r.value.1| < |s|
  {
    if s == [] then None
    else if s[0] == '"' then
      if |s| >= 2 && s[1] == '"' then
        match ReadQuoted(s[2..])
        case None => None
        case Some(p) => Some(("\"" + p.0, p.1))
      else Some(([], s[1..]))
    else
      match ReadQuoted(s[1..])
      case None => None
      case Some(p) => Some(([s[0]] + p.0, p.1))
  }

  /** An unquoted field: everything up to the next comma. */
  function ReadPlain(s: string): (r: (string, string))
    ensures r.0 + r.1 == s
    ensures ',' !in r.0
    ensures r.1 == [] || r.1[0] == ','
  {
    if s == [] || s[0] == ',' then ([], s)
    else
      var p := ReadPlain(s[1..]);
      ConsSplit(s, p.0, p.1);
      ([s[0]] + p.0, p.1)
  }

  /** Splitting the tail of `s` splits `s` after its first character. */
  lemma ConsSplit<T>(s: seq<T>, a: seq<T>, b: seq<T>)
    requires s != [] && a + b == s[1..]
    ensures ([s[0]] + a) + b == s
  {
    assert ([s[0]] + a) + b == [s[0]] + (a + b);
  }

  /** The fields of one CSV line, `None` when it is malformed. */
  function ReadFields(s: string): Option<seq<string>>
    decreases |s|, 1
  {
    if s != [] && s[0] == '"' then
      match ReadQuoted(s[1..])
      case None => None
      case Some(p) => NextField(p.0, p.1)
    else
      var p := ReadPlain(s);
      NextField(p.0, p.1)
  }

  /** After a field: the end of the line, or a comma and more fields. */
  function NextField(f: string, rest: string): Option<seq<string>>
    decreases |rest|, 0
  {
    if rest == [] then Some([f])
    else if rest[0] == ',' then
      match ReadFields(rest[1..])
      case None => None
      case Some(fs) => Some([f] + fs)
    else None
  }

  /** One escaped character read back. */
  lemma ReadQuotedStep(c: char, tail: string)
    requires ReadQuoted(tail).Some?
    ensures ReadQuoted((if c == '"' then "\"\"" else [c]) + tail)
            == Some(([c] + ReadQuoted(tail).value.0, ReadQuoted(tail).value.1))
  {
    if c == '"' {
      assert ("\"\"" + tail)[2..] == tail;
    } else {
      assert ([c] + tail)[1..] == tail;
    }
  }

  lemma {:induction false} ReadQuotedOfDoubled(t: string, rest: string)
    requires rest == [] || rest[0] != '"'
    ensures ReadQuoted(DoubleQuotes(t) + "\"" + rest) == Some((t, rest))
  {
    if t == [] {
      assert DoubleQuotes(t) + "\"" + rest == "\"" + rest;
      assert ("\"" + rest)[1..] == rest;
    } else {
      ReadQuotedOfDoubled(t[1..], rest);
      var tail := DoubleQuotes(t[1..]) + "\"" + rest;
      ReadQuotedStep(t[0], tail);
      assert DoubleQuotes(t) + "\"" + rest == (if t[0] == '"' then "\"\"" else [t[0]]) + tail;
      assert [t[0]] + t[1..] == t;
    }
  }

  lemma {:induction false} ReadPlainOf(t: string, rest: string)
    requires ',' !in t
    requires rest == [] || rest[0] == ','
    ensures ReadPlain(t + rest) == (t, rest)
  {
    if t != [] {
      assert (t + rest)[1..] == t[1..] + rest;
      ReadPlainOf(t[1..], rest);
      assert [t[0]] + t[1..] == t;
    } else {
      assert t + rest == rest;
    }
  }

  /** An escaped field reads back as the text it escapes. */
  lemma ReadEscaped(t: string, rest: string)
    requires rest == [] || rest[0] == ','
    ensures ReadFields(EscapeText(t) + rest) == NextField(t, rest)
  {
    if NeedsQuotes(t) {
      ReadEscapedQuoted(t, rest);
    } else {
      ReadEscapedPlain(t, rest);
    }
  }

  lemma ReadEscapedQuoted(t: string, rest: string)
    requires rest == [] || rest[0] == ','
    requires NeedsQuotes(t)
    ensures ReadFields(EscapeText(t) + rest) == NextField(t, rest)
  {
    var body := DoubleQuotes(t) + "\"" + rest;
    QuotedLine(t, rest);
    ReadQuotedOfDoubled(t, rest);
    ReadFieldsQuoted("\"" + body, t, rest);
  }

  /** A quoted field followed by the rest of the line. */
  lemma QuotedLine(t: string, rest: string)
    requires NeedsQuotes(t)
    ensures var body := DoubleQuotes(t) + "\"" + rest;
            EscapeText(t) + rest == "\"" + body && ("\"" + body)[1..] == body
  {
  }

  /** A line opening with a quoted field goes on after its closing quote. */
  lemma ReadFieldsQuoted(s: string, f: string, rest: string)
    requires s != [] && s[0] == '"'
    requires ReadQuoted(s[1..]) == Some((f, rest))
    ensures ReadFields(s) == NextField(f, rest)
  {
  }

  lemma ReadEscapedPlain(t: string, rest: string)
    requires rest == [] || rest[0] == ','
    requires !NeedsQuotes(t)
    ensures ReadFields(EscapeText(t) + rest) == NextField(t, rest)
  {
    var s := t + rest;
    assert EscapeText(t) == t;
    ReadPlainOf(t, rest);
    assert s != [] ==> s[0] != '"' by {
      if t != [] {
        assert s[0] == t[0];
      }
    }
  }

  /** Every text escaped. */
  function EscapeAll(ts: seq<string>): (r: seq<string>)
    ensures |r| == |ts|
    ensures forall i :: 0 <= i < |ts| ==> r[i] == EscapeText(ts[i])
  {
    if ts == [] then [] else [EscapeText(ts[0])] + EscapeAll(ts[1..])
  }

  /** A line of escaped fields reads back as the texts, whatever they
      hold. */
  lemma {:induction false} ReadEscapedLine(ts: seq<string>)
    requires ts != []
    ensures ReadFields(Join(EscapeAll(ts), ',')) == Some(ts)
  {
    var es := EscapeAll(ts);
    if |ts| == 1 {
      ReadEscaped(ts[0], []);
      assert EscapeText(ts[0]) + [] == EscapeText(ts[0]);
      assert Join(es, ',') == es[0];
      assert ts == [ts[0]];
    } else {
      ReadEscapedLine(ts[1..]);
      assert es[1..] == EscapeAll(ts[1..]);
      var more := Join(es[1..], ',');
      assert Join(es, ',') == EscapeText(ts[0]) + ([','] + more);
      ReadEscaped(ts[0], [','] + more);
      assert ([','] + more)[1..] == more;
      assert [ts[0]] + ts[1..] == ts;
    }
  }

  /** A field is quoted exactly when its text holds a comma or a quote
      (it never holds a line break). */
  lemma QuotedIffSpecial(s: string)
    ensures var r := EscapeCsvField(SwipeContent.Str(s));
            var t := NormalizeText(s);
            (r != [] && r[0] == '"') <==> (',' in t || '"' in t)
  {
    NormalizeFacts(s);
    var t := NormalizeText(s);
    if t != [] && !NeedsQuotes(t) {
      assert t[0] != '"';
    }
  }

  // ---------------------------------------------------------------------
  // generateCsv

  const Headers: seq<string> := ["タイトル", "概要", "価格", "OGP画像URL", "URL"]

  /** The five values a book contributes, in column order. */
  function RowValues(b: SwipeContent.StoredBook): seq<SwipeContent.JsValue> {
    [b.title, b.description, b.price, b.imageUrl, b.url]
  }

  /** Every value escaped. */
  function EscapeFields(vs: seq<SwipeContent.JsValue>): (r: seq<string>)
    ensures |r| == |vs|
    ensures forall i :: 0 <= i < |vs| ==> r[i] == EscapeCsvField(vs[i])
  {
    if vs == [] then [] else [EscapeCsvField(vs[0])] + EscapeFields(vs[1..])
  }

  /** The text of every value. */
  function FieldTexts(vs: seq<SwipeContent.JsValue>): (r: seq<string>)
    ensures |r| == |vs|
    ensures forall i :: 0 <= i < |vs| ==> r[i] == FieldText(vs[i])
  {
    if vs == [] then [] else [FieldText(vs[0])] + FieldTexts(vs[1..])
  }

  /** Escaping values is escaping their texts. */
  lemma EscapeFieldsTexts(vs: seq<SwipeContent.JsValue>)
    ensures EscapeFields(vs) == EscapeAll(FieldTexts(vs))
  {
  }

  /** The texts of the five columns for one book. */
  function RowTexts(b: SwipeContent.StoredBook): seq<string> {
    FieldTexts(RowValues(b))
  }

  /** The line `generateCsv` writes for one book: its five fields
      escaped and joined by commas. */
  function RowLine(b: SwipeContent.StoredBook): (r: string)
    ensures '\n' !in r
  {
    var es := EscapeFields(RowValues(b));
    JoinKeepsOut(es, ',', '\n');
    Join(es, ',')
  }

  /** One CSV line per book. */
  function Rows(books: seq<SwipeContent.StoredBook>): (r: seq<string>)
    ensures |r| == |books|
    ensures forall i :: 0 <= i < |books| ==> r[i] == RowLine(books[i])
  {
    if books == [] then [] else [RowLine(books[0])] + Rows(books[1..])
  }

  /** A character that is neither in the parts nor the separator is not in
      the joined string. */
  lemma {:induction false} JoinKeepsOut(parts: seq<string>, c: char, x: char)
    requires x != c
    requires forall i :: 0 <= i < |parts| ==> x !in parts[i]
    ensures x !in Join(parts, c)
  {
    if |parts| > 1 {
      JoinKeepsOut(parts[1..], c, x);
    }
  }

  /** `generateCsv`: a byte order mark, the header line and one line per
      book, joined by line breaks. */
  function GenerateCsv(books: seq<SwipeContent.StoredBook>): (r: string)
    ensures r != [] && r[0] == '\U{FEFF}'
  {
    "\U{FEFF}" + Join([Join(Headers, ',')] + Rows(books), '\n')
  }

  /** No column name needs quoting or holds a line break. */
  lemma HeadersArePlain()
    ensures forall i :: 0 <= i < |Headers| ==> EscapeText(Headers[i]) == Headers[i] && '\n' !in Headers[i]
  {
    assert !NeedsQuotes("タイトル") && !NeedsQuotes("概要") && !NeedsQuotes("価格");
    assert !NeedsQuotes("OGP画像URL") && !NeedsQuotes("URL");
  }

  /** The header line holds no line break and reads back as the column
      names. */
  lemma HeaderReadsBack()
    ensures '\n' !in Join(Headers, ',')
    ensures ReadFields(Join(Headers, ',')) == Some(Headers)
  {
    HeadersArePlain();
    var es := EscapeAll(Headers);
    assert es == Headers;
    ReadEscapedLine(Headers);
    JoinKeepsOut(Headers, ',', '\n');
  }

  /** The CSV splits into the header line and exactly one line per book,
      and every line reads back as its fields: the column names, then the
      normalised texts of each book in order. */
  lemma CsvReadsBack(books: seq<SwipeContent.StoredBook>)
    ensures var lines := Split(GenerateCsv(books)[1..], '\n');
            && |lines| == |books| + 1
            && ReadFields(lines[0]) == Some(Headers)
            && forall i :: 0 <= i < |books| ==> ReadFields(lines[i + 1]) == Some(RowTexts(books[i]))
  {
    var header := Join(Headers, ',');
    var parts := [header] + Rows(books);
    HeaderReadsBack();
    assert GenerateCsv(books)[1..] == Join(parts, '\n');
    SplitJoin(parts, '\n');
    forall i | 0 <= i < |books|
      ensures ReadFields(parts[i + 1]) == Some(RowTexts(books[i]))
    {
      assert parts[i + 1] == RowLine(books[i]);
      EscapeFieldsTexts(RowValues(books[i]));
      ReadEscapedLine(RowTexts(books[i]));
    }
  }

  // ---------------------------------------------------------------------
  // getLikedBooksData and updateStats

  /** `history[id] === 'like'`. */
  predicate IsLiked(history: SwipeContent.History, id: string) {
    Get(history, id) == Some(SwipeContent.Like)
  }

  /** `Object.keys(history).filter(id => history[id] === 'like')`, over
      the keys `ks`. */
  function LikedAmong(ks: seq<string>, history: SwipeContent.History): (r: seq<string>)
    ensures |r| <= |ks|
    ensures forall k :: 0 <= k < |r| ==> r[k] in ks && IsLiked(history, r[k])
    ensures forall i :: 0 <= i < |ks| && IsLiked(history, ks[i]) ==> ks[i] in r
  {
    if ks == [] then []
    else
      var rest := LikedAmong(ks[1..], history);
      var r := if IsLiked(history, ks[0]) then [ks[0]] + rest else rest;
      FilterCons(ks, id => IsLiked(history, id), rest, r);
      r
  }

  /** Filtering the tail and then the first element filters the whole
      sequence. */
  lemma FilterCons<T>(ks: seq<T>, keep: T -> bool, rest: seq<T>, r: seq<T>)
    requires ks != []
    requires |rest| <= |ks| - 1
    requires forall k :: 0 <= k < |rest| ==> rest[k] in ks[1..] && keep(rest[k])
    requires forall i :: 1 <= i < |ks| && keep(ks[i]) ==> ks[i] in rest
    requires r == if keep(ks[0]) then [ks[0]] + rest else rest
    ensures |r| <= |ks|
    ensures forall k :: 0 <= k < |r| ==> r[k] in ks && keep(r[k])
    ensures forall i :: 0 <= i < |ks| && keep(ks[i]) ==> ks[i] in r
  {
    forall k | 0 <= k < |r|
      ensures r[k] in ks && keep(r[k])
    {
      if r != rest && k > 0 {
        assert r[k] == rest[k - 1];
      }
    }
  }

  /** The ids rated 'like', in key order. */
  function LikedIds(history: SwipeContent.History): seq<string> {
    LikedAmong(Keys(history), history)
  }

  /** `ids.map(id => likedBooks[id]).filter(book => book)`. */
  function StoredFor(ids: seq<string>, liked: Obj<SwipeContent.StoredBook>): (r: seq<SwipeContent.StoredBook>)
    ensures |r| <= |ids|
    ensures (forall i :: 0 <= i < |ids| ==> Get(liked, ids[i]).Some?) ==>
              |r| == |ids| && forall i :: 0 <= i < |ids| ==> r[i] == Get(liked, ids[i]).value
  {
    if ids == [] then []
    else
      var rest := StoredFor(ids[1..], liked);
      match Get(liked, ids[0])
      case Some(b) => [b] + rest
      case None => rest
  }

  /** `getLikedBooksData`: the stored data of the liked books, in key
      order, skipping liked books with nothing stored. */
  function LikedBooks(st: SwipeContent.Store): seq<SwipeContent.StoredBook> {
    StoredFor(LikedIds(st.history), st.liked)
  }

  /** The liked ids come in the order of their keys. */
  lemma {:induction false} LikedAmongKeepsOrder(ks: seq<string>, history: SwipeContent.History)
    requires Distinct(ks)
    ensures PageText.InOrderOf(ks, LikedAmong(ks, history))
  {
    if ks != [] {
      var tail := ks[1..];
      DistinctTail(ks);
      LikedAmongKeepsOrder(tail, history);
      var rest := LikedAmong(tail, history);
      PageText.InOrderOfCons(ks, rest);
    }
  }

  /** The liked ids count the 'like' values. */
  lemma {:induction false} LikedAmongCounts(o: SwipeContent.History, history: SwipeContent.History)
    requires DistinctKeys(o)
    requires forall i :: 0 <= i < |o| ==> Get(history, o[i].key) == Some(o[i].val)
    ensures |LikedAmong(Keys(o), history)| == CountValue(o, SwipeContent.Like)
  {
    if o != [] {
      DistinctKeysTail(o);
      assert Keys(o)[1..] == Keys(o[1..]);
      LikedAmongCounts(o[1..], history);
    }
  }

  /** The liked ids are exactly as many as the 'like' values counted by
      `updateStats`. */
  lemma LikedIdsCount(history: SwipeContent.History)
    requires DistinctKeys(history)
    ensures |LikedIds(history)| == CountValue(history, SwipeContent.Like)
  {
    forall i | 0 <= i < |history|
      ensures Get(history, history[i].key) == Some(history[i].val)
    {
      GetEntry(history, i);
    }
    LikedAmongCounts(history, history);
  }

  /** `getLikedBooksData` keeps the order of the history's keys. */
  lemma LikedIdsInKeyOrder(history: SwipeContent.History)
    requires DistinctKeys(history)
    ensures PageText.InOrderOf(Keys(history), LikedIds(history))
  {
    LikedAmongKeepsOrder(Keys(history), history);
  }

  /** What `updateStats` shows. */
  datatype Stats = Stats(liked: nat, disliked: nat, exportEnabled: bool)

  /** `updateStats`: the number of likes and of dislikes, and the export
      buttons enabled when something is liked. */
  function UpdateStats(history: SwipeContent.History): (r: Stats)
    ensures r.liked == CountValue(history, SwipeContent.Like)
    ensures r.disliked == CountValue(history, SwipeContent.Dislike)
    ensures r.exportEnabled <==> exists i :: 0 <= i < |history| && history[i].val == SwipeContent.Like
    ensures r.liked + r.disliked == |history|
  {
    var liked := CountValue(history, SwipeContent.Like);
    var disliked := CountValue(history, SwipeContent.Dislike);
    CountsCover(history);
    Stats(liked, disliked, liked > 0)
  }

  /** With distinct keys the like count shown is the number of books the
      export looks up. */
  lemma StatsCountLikedIds(history: SwipeContent.History)
    requires DistinctKeys(history)
    ensures UpdateStats(history).liked == |LikedIds(history)|
  {
    LikedIdsCount(history);
  }

  /** Every rating is a like or a dislike. */
  lemma {:induction false} CountsCover(o: SwipeContent.History)
    ensures CountValue(o, SwipeContent.Like) + CountValue(o, SwipeContent.Dislike) == |o|
  {
    if o != [] {
      CountsCover(o[1..]);
      assert CountValue(o, SwipeContent.Like) == (if o[0].val == SwipeContent.Like then 1 else 0) + CountValue(o[1..], SwipeContent.Like);
      assert CountValue(o, SwipeContent.Dislike) == (if o[0].val == SwipeContent.Dislike then 1 else 0) + CountValue(o[1..], SwipeContent.Dislike);
    }
  }

  /** Export is offered exactly when a book is liked; when every liked
      book has data stored, the export then holds one line per liked book,
      but a liked book without data leaves the export one line short. */
  lemma ExportMatchesStats(st: SwipeContent.Store)
    requires DistinctKeys(st.history)
    ensures UpdateStats(st.history).exportEnabled <==> LikedIds(st.history) != []
    ensures SwipeContent.LikedHaveData(st) ==> |LikedBooks(st)| == UpdateStats(st.history).liked
    ensures |LikedBooks(st)| <= UpdateStats(st.history).liked
  {
    LikedIdsCount(st.history);
    var ids := LikedIds(st.history);
    if SwipeContent.LikedHaveData(st) {
      assert forall i :: 0 <= i < |ids| ==> Get(st.liked, ids[i]).Some?;
    }
  }

  /** A like given on a product page whose data could not be read enables
      the export buttons, yet the export finds no book and reports that
      nothing is liked. The case needs the page reader
      (`extractCurrentPageBookData`) to throw, which a normal product page
      does not cause: it marks an edge of the protocol, not a common path. */
  lemma ExportCanComeUpEmpty()
    ensures var st := SwipeContent.UpdateBookRating(SwipeContent.Store([], []), "a", Some(SwipeContent.Like), None);
            UpdateStats(st.history).exportEnabled && LikedBooks(st) == []
  {
    var st := SwipeContent.UpdateBookRating(SwipeContent.Store([], []), "a", Some(SwipeContent.Like), None);
    assert st.history == [Entry("a", SwipeContent.Like)];
    assert st.history[0].val == SwipeContent.Like;
    assert Keys(st.history) == ["a"];
    assert LikedIds(st.history) == ["a"];
    assert Get(st.liked, "a") == None;
  }

  // ---------------------------------------------------------------------
  // Page type

  /** `tab.url` includes both market markers. */
  predicate IsMarketPage(url: Option<string>) {
    url.Some? && Contains(url.value, "techbookfest.org/event/") && Contains(url.value, "/market/")
  }

  predicate IsProductPage(url: Option<string>) {
    url.Some? && Contains(url.value, "techbookfest.org/product/")
  }

  /** What the popup shows. */
  datatype View = NotTechbook | RatingButtons | StartSwipe

  function PopupView(url: Option<string>): (v: View)
    ensures v == NotTechbook <==> !IsMarketPage(url) && !IsProductPage(url)
    ensures v == RatingButtons <==> IsProductPage(url)
    ensures v == StartSwipe <==> IsMarketPage(url) && !IsProductPage(url)
  {
    if !IsMarketPage(url) && !IsProductPage(url) then NotTechbook
    else if IsProductPage(url) then RatingButtons
    else StartSwipe
  }
}
