/** The canned replies the chat answers with, and how one is picked. */
module Replies {

  /** The fixed table of sarcastic replies, in the order the component lists them. */
  const Responses: seq<string> := [
    "Ох, какой глубокий вопрос! Дайте мне подумать... Нет, даже не буду.",
    "Вау, этого точно никто никогда не спрашивал. Оригинально!",
    "Серьезно? Это лучшее, что вы смогли придумать?",
    "О боже, еще один гений! Как мне повезло...",
    "Знаете что? Лучше бы вы молчали.",
    "Этот вопрос настолько глупый, что мой ИИ заплакал.",
    "Поздравляю! Вы официально задали самый бесполезный вопрос дня.",
    "Я видел умнее вопросы от микроволновки.",
    "Ваш вопрос как анекдот - только не смешной.",
    "Мне кажется, или ваша клавиатура сломалась? Потому что то, что вы написали - полная чушь.",
    "Попробуйте еще раз, но в этот раз включите мозг.",
    "Даже моя бабушка задает более умные вопросы, а она умерла 10 лет назад.",
    "Вы уверены, что хотите тратить мое драгоценное время на это?",
    "Ладно, отвечу, но только потому что мне скучно.",
    "О нет, опять этот человек с вопросами..."
  ]

  /** `Math.floor(u * Responses.length)` for a draw `u` of `Math.random()`,
      which lies in [0, 1): always a valid index into the table. */
  function ReplyIndex(u: real): (k: nat)
    requires 0.0 <= u < 1.0
    ensures k < |Responses|
    ensures k as real <= u * |Responses| as real < k as real + 1.0
  {
    (u * |Responses| as real).Floor
  }

  /** The reply for the draw `u`: always one of the table's entries. */
  function GetRandomResponse(u: real): (r: string)
    requires 0.0 <= u < 1.0
    ensures r in Responses
  {
    Responses[ReplyIndex(u)]
  }

  /** Every entry of the table can be picked: the draw `k / 15` picks entry `k`. */
  lemma EveryResponseReachable(k: nat)
    requires k < |Responses|
    ensures ReplyIndex(k as real / |Responses| as real) == k
  {
    assert |Responses| == 15;
    var u := k as real / 15.0;
    assert u * |Responses| as real == k as real;
    assert (k as real).Floor == k;
  }
}
