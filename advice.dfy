/**
 * What the recipe advisor sends and shows: the question built from the
 * ingredient names, the reply of the retrieval chain, and the texts put in
 * the recipe area.
 */
module Advice {
  import opened Database

  /** The ideographic comma that separates ingredient names in the question. */
  const Separator: char := '、'

  /** `sep.join(parts)`. */
  function Join(parts: seq<string>): string {
    if parts == [] then ""
    else if |parts| == 1 then parts[0]
    else parts[0] + [Separator] + Join(parts[1..])
  }

  /** `s.split(sep)`: the pieces between separators, always at least one. */
  function Split(s: string): (pieces: seq<string>)
    ensures |pieces| >= 1
  {
    if s == [] then [""]
    else
      var rest := Split(s[1..]);
      if s[0] == Separator then [""] + rest
      else [[s[0]] + rest[0]] + rest[1..]
  }

  lemma JoinCons(head: string, tail: seq<string>)
    ensures Join([head] + tail) == if tail == [] then head else head + [Separator] + Join(tail)
  {
    assert ([head] + tail)[1..] == tail;
  }

  /** Splitting the joined text gives back every character: the question loses nothing. */
  lemma {:induction false} JoinSplit(s: string)
    ensures Join(Split(s)) == s
  {
    if s != [] {
      var rest := Split(s[1..]);
      JoinSplit(s[1..]);
      JoinCons(rest[0], rest[1..]);
      assert rest == [rest[0]] + rest[1..];
      if s[0] == Separator {
        JoinCons("", rest);
      } else {
        JoinCons([s[0]] + rest[0], rest[1..]);
      }
      assert s == [s[0]] + s[1..];
    }
  }

  lemma {:induction false} SplitPlain(a: string)
    requires Separator !in a
    ensures Split(a) == [a]
  {
    if a != [] {
      assert a[0] in a;
      SplitPlain(a[1..]);
      assert a == [a[0]] + a[1..];
    }
  }

  lemma {:induction false} SplitAtSeparator(a: string, rest: string)
    requires Separator !in a
    ensures Split(a + [Separator] + rest) == [a] + Split(rest)
  {
    if a == [] {
      assert a + [Separator] + rest == [Separator] + rest;
    } else {
      var x := a + [Separator] + rest;
      assert x[0] == a[0] && a[0] in a;
      assert x[1..] == a[1..] + [Separator] + rest;
      SplitAtSeparator(a[1..], rest);
      assert a == [a[0]] + a[1..];
    }
  }

  /**
   * When no name contains the separator, the question splits back into
   * exactly the list of names, in order.
   */
  lemma {:induction false} SplitJoin(parts: seq<string>)
    requires parts != []
    requires forall i :: 0 <= i < |parts| ==> Separator !in parts[i]
    ensures Split(Join(parts)) == parts
  {
    if |parts| == 1 {
      SplitPlain(parts[0]);
    } else {
      SplitJoin(parts[1..]);
      SplitAtSeparator(parts[0], Join(parts[1..]));
      assert parts == [parts[0]] + parts[1..];
    }
  }

  /** The `name` column of every row, in row order. */
  function Names(rows: seq<Ingredient>): (names: seq<string>)
    ensures |names| == |rows|
    ensures forall i :: 0 <= i < |rows| ==> names[i] == rows[i].name
  {
    seq(|rows|, i requires 0 <= i < |rows| => rows[i].name)
  }

  /** The question put to the chain: the names joined by the separator. */
  function Question(rows: seq<Ingredient>): string {
    Join(Names(rows))
  }

  /** The answer of the retrieval chain: generated text, or the text of the exception it raised. */
  datatype Reply = Answer(text: string) | Raised(reason: string)

  /** The retrieval-augmented chain, seen only through the reply it gives to a question. */
  datatype Chain = Chain(invoke: string -> Reply)

  const PlaceholderText: string := "點擊上方按鈕，AI 將會在此顯示建議的食譜..."
  const SearchingText: string := "正在我們的專業食譜庫中搜尋靈感，請稍候..."
  const NotInitialisedText: string := "AI 功能模組未成功初始化，無法生成食譜。"
  const EmptyInventoryText: string := "庫存是空的，請先新增一些食材！"
  const FailurePrefix: string := "生成食譜時發生錯誤：\n"
  const FailureSuffix: string := "\n\n請確認 Ollama 服務正在本機端正常執行。"

  /** The diagnostic shown when generation raised. */
  function FailureText(reason: string): string {
    FailurePrefix + reason + FailureSuffix
  }

  /** What the recipe area shows for a reply. */
  function Shown(reply: Reply): string {
    match reply
    case Answer(text) => text
    case Raised(reason) => FailureText(reason)
  }

  /** The diagnostic carries the reason verbatim, and never reads as one of the fixed notices. */
  lemma FailureNamesReason(reason: string)
    ensures var t, i := FailureText(reason), |FailurePrefix|;
      i + |reason| <= |t| && t[i..i + |reason|] == reason
    ensures FailureText(reason) != EmptyInventoryText && FailureText(reason) != NotInitialisedText
  {
    var t := FailureText(reason);
    var i := |FailurePrefix|;
    assert t[i..i + |reason|] == reason;
    assert t[0] == FailurePrefix[0];
  }
}
