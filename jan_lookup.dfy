/**
  The JAN code search page (janCord00.py): a constant table from 13-digit codes to product
  records, and `jan_lookup`, which validates the input and answers with either a record or an
  error message.
*/
module JanLookup {
  import opened Wrappers
  import opened Decimal

  /** A product record: 商品名, カテゴリ, メーカー and 価格 (in yen, tax included). */
  datatype Item = Item(name: string, category: string, maker: string, price: int)

  /** `JAN_DATABASE`. */
  const Database: map<string, Item> := map[
    "4901234567890" := Item("特選コーヒー豆ブレンドA 200g", "飲料・食品", "山川食品", 1280),
    "4998765432109" := Item("超音波式加湿器 S-100", "家電製品", "未来テクノロジー", 4980),
    "4500000000001" := Item("高級ノート B5サイズ 100枚", "文房具", "文具のタナカ", 350),
    "4911122233445" := Item("プレミアムチョコレート 10個入", "菓子", "甘味堂", 550)
  ]

  /** The answer to input that is not a 13-digit code. */
  const InvalidMessage: string := "JANコードは13桁の半角数字で入力してください。"

  const NotFoundPrefix: string := "JANコード: "
  const NotFoundSuffix: string := " に一致する商品が見つかりませんでした。"

  /** The answer to a well-formed code that is not in the table. */
  function NotFoundMessage(code: string): string
  {
    NotFoundPrefix + code + NotFoundSuffix
  }

  /** The validation of `jan_lookup`: `jan_code.isdigit() and len(jan_code) == 13`. */
  predicate WellFormed(code: string)
  {
    AllDigits(code) && |code| == 13
  }

  /**
    `jan_lookup(jan_code)`: the pair (record, error message). Exactly one of the two is present:
    a record only for a code of the table, an error message otherwise.
  */
  function Lookup(code: string): (r: (Option<Item>, Option<string>))
    ensures r.0.Some? != r.1.Some?
    ensures r.0.Some? ==> code in Database && r.0.value == Database[code]
  {
    if !WellFormed(code) then (None, Some(InvalidMessage))
    else if code in Database then (Some(Database[code]), None)
    else (None, Some(NotFoundMessage(code)))
  }

  /** The three outcomes, each exactly when its condition holds. */
  lemma LookupCases(code: string)
    ensures Lookup(code) == (None, Some(InvalidMessage)) <==> !WellFormed(code)
    ensures Lookup(code).0.Some? <==> WellFormed(code) && code in Database
    ensures Lookup(code) == (None, Some(NotFoundMessage(code))) <==> WellFormed(code) && code !in Database
  {
    MessagesDiffer(code);
  }

  /** The error message and a not-found message are never the same text. */
  lemma MessagesDiffer(code: string)
    ensures InvalidMessage != NotFoundMessage(code)
  {
    assert InvalidMessage[6] == 'は';
    assert NotFoundMessage(code)[6] == ':';
  }

  /** The not-found message quotes the code, starting right after its fixed prefix. */
  lemma NotFoundQuotesCode(code: string)
    ensures var m := NotFoundMessage(code);
      |NotFoundPrefix| + |code| <= |m| && m[|NotFoundPrefix|..|NotFoundPrefix| + |code|] == code
  {
  }

  /** Reading the code back out of a not-found message: different codes give different messages. */
  lemma NotFoundInjective(a: string, b: string)
    requires NotFoundMessage(a) == NotFoundMessage(b)
    ensures a == b
  {
    var m := NotFoundMessage(a);
    assert |a| == |b|;
    NotFoundQuotesCode(a);
    NotFoundQuotesCode(b);
    assert a == m[|NotFoundPrefix|..|NotFoundPrefix| + |a|];
  }

  /** Every key of the table is a 13-digit code, so each record is found by its own code. */
  lemma EveryRecordReachable()
    ensures forall k :: k in Database ==> WellFormed(k)
    ensures forall k :: k in Database ==> Lookup(k) == (Some(Database[k]), None)
  {
    forall k | k in Database
      ensures WellFormed(k)
    {
      assert k == "4901234567890" || k == "4998765432109" || k == "4500000000001" || k == "4911122233445";
    }
  }
}
