/**
 * The chat personas of the reading room: three book-club members drawn from
 * the sixteen MBTI types and a 3×2 table of attitudes, the system prompts
 * that give each of them a voice, the tone rewriter's prompt, and the prompt
 * that asks for the three replies to be rewritten as one group chat.
 */
module Personas {
  import opened Outcomes
  import opened Strings

  // ---------------------------------------------------------------------------
  // Catalogues
  // ---------------------------------------------------------------------------

  /** The sixteen MBTI types, in the order both sites list them. */
  const MbtiTypes: seq<string> := ["ENFJ", "ENFP", "ENTJ", "ENTP", "ESFJ", "ESFP", "ESTJ", "ESTP",
                                   "INFJ", "INFP", "INTJ", "INTP", "ISFJ", "ISFP", "ISTJ", "ISTP"]

  /** The Chinese site's description of each type, position for position. */
  const MbtiInfoZh: seq<string> := [
    "外向情感直觉判断型", "外向情感直觉感知型", "外向思考直觉判断型", "外向思考直觉感知型",
    "外向情感感觉判断型", "外向情感感觉感知型", "外向思考感觉判断型", "外向思考感觉感知型",
    "内向情感直觉判断型", "内向情感直觉感知型", "内向思考直觉判断型", "内向思考直觉感知型",
    "内向情感感觉判断型", "内向情感感觉感知型", "内向思考感觉判断型", "内向思考感觉感知型"]

  /** The English site's description of each type, position for position. */
  const MbtiInfoEn: seq<string> := [
    "Extraverted Feeling Intuitive Judging", "Extraverted Feeling Intuitive Perceiving",
    "Extraverted Thinking Intuitive Judging", "Extraverted Thinking Intuitive Perceiving",
    "Extraverted Feeling Sensing Judging", "Extraverted Feeling Sensing Perceiving",
    "Extraverted Thinking Sensing Judging", "Extraverted Thinking Sensing Perceiving",
    "Introverted Feeling Intuitive Judging", "Introverted Feeling Intuitive Perceiving",
    "Introverted Thinking Intuitive Judging", "Introverted Thinking Intuitive Perceiving",
    "Introverted Feeling Sensing Judging", "Introverted Feeling Sensing Perceiving",
    "Introverted Thinking Sensing Judging", "Introverted Thinking Sensing Perceiving"]

  /** No entry of `s` appears twice. */
  predicate Distinct(s: seq<string>) {
    forall i, j :: 0 <= i < j < |s| ==> s[i] != s[j]
  }

  /**
   * `dict(zip(keys, values))`: the pairs up to the shorter list, a later
   * pair overwriting an earlier one with the same key.
   */
  function ZipDict(keys: seq<string>, values: seq<string>): (d: map<string, string>)
    ensures forall k :: 0 <= k < |keys| && k < |values| ==> keys[k] in d
    decreases |keys|
  {
    if |keys| == 0 || |values| == 0 then map[]
    else
      var rest := ZipDict(keys[1..], values[1..]);
      assert forall k :: 1 <= k < |keys| && k < |values| ==> keys[1..][k - 1] == keys[k];
      if keys[0] in rest then rest else rest[keys[0] := values[0]]
  }

  /** With distinct keys, each key of the zip looks up the value at its own position. */
  lemma {:induction false} ZipLookup(keys: seq<string>, values: seq<string>, k: nat)
    requires Distinct(keys) && k < |keys| && k < |values|
    ensures keys[k] in ZipDict(keys, values) && ZipDict(keys, values)[keys[k]] == values[k]
    decreases |keys|
  {
    var rest := ZipDict(keys[1..], values[1..]);
    if k == 0 {
      assert keys[0] !in rest by {
        forall j | 0 <= j < |keys[1..]| && j < |values[1..]| ensures keys[1..][j] != keys[0] {
          assert keys[1..][j] == keys[j + 1];
        }
        ZipKeysAbsent(keys[1..], values[1..], keys[0]);
      }
    } else {
      assert Distinct(keys[1..]) by {
        forall i, j | 0 <= i < j < |keys[1..]| ensures keys[1..][i] != keys[1..][j] {
          assert keys[1..][i] == keys[i + 1] && keys[1..][j] == keys[j + 1];
        }
      }
      ZipLookup(keys[1..], values[1..], k - 1);
      assert keys[1..][k - 1] == keys[k] && values[1..][k - 1] == values[k];
      assert keys[0] != keys[k];
    }
  }

  /** A key none of the pairs carries is not in the zip. */
  lemma {:induction false} ZipKeysAbsent(keys: seq<string>, values: seq<string>, key: string)
    requires forall k :: 0 <= k < |keys| && k < |values| ==> keys[k] != key
    ensures key !in ZipDict(keys, values)
    decreases |keys|
  {
    if |keys| > 0 && |values| > 0 {
      forall k | 0 <= k < |keys[1..]| && k < |values[1..]| ensures keys[1..][k] != key {
        assert keys[1..][k] == keys[k + 1];
      }
      ZipKeysAbsent(keys[1..], values[1..], key);
    }
  }

  /** The sixteen types are sixteen different strings of four letters. */
  lemma MbtiTypesDistinct()
    ensures |MbtiTypes| == 16 && Distinct(MbtiTypes)
    ensures forall i :: 0 <= i < 16 ==> |MbtiTypes[i]| == 4
  {
  }

  /** `MBTI_INFO_DICT` of the Chinese site. */
  const MbtiInfoDictZh: map<string, string> := ZipDict(MbtiTypes, MbtiInfoZh)

  /** `MBTI_INFO_DICT` of the English site. */
  const MbtiInfoDictEn: map<string, string> := ZipDict(MbtiTypes, MbtiInfoEn)

  /** Both dictionaries pair each type with the description at the same position. */
  lemma MbtiInfoByPosition(k: nat)
    requires k < 16
    ensures MbtiTypes[k] in MbtiInfoDictZh && MbtiInfoDictZh[MbtiTypes[k]] == MbtiInfoZh[k]
    ensures MbtiTypes[k] in MbtiInfoDictEn && MbtiInfoDictEn[MbtiTypes[k]] == MbtiInfoEn[k]
  {
    MbtiTypesDistinct();
    ZipLookup(MbtiTypes, MbtiInfoZh, k);
    ZipLookup(MbtiTypes, MbtiInfoEn, k);
  }

  /** A table with one row per persona and one column per attitude bit. */
  type Table = t: seq<seq<string>> | |t| == 3 && forall i :: 0 <= i < 3 ==> |t[i]| == 2
    witness [["", ""], ["", ""], ["", ""]]

  /** The style guides, laid out like `Table`, one list of sample sentences per cell. */
  type GuideTable = t: seq<seq<seq<string>>> | |t| == 3 && forall i :: 0 <= i < 3 ==> |t[i]| == 2
    witness [[[], []], [[], []], [[], []]]

  /** `PREFERENCE_TYPE`: the stance each persona takes towards the book. */
  const PreferenceTypes: Table := [
    ["理性中立，理性分析作品的有点和缺点", "邪恶中立，喜欢多开玩笑"],
    ["强烈喜欢，喜欢讨论作品的细节", "理性喜欢，不谈论细节，多讨论感受"],
    ["强烈不喜欢，不喜论作品的一切", "理性不喜欢，多讨论感受"]]

  /** `PREFERENCE_NAME`: the persona's display name. */
  const PreferenceNames: Table := [["理中客", "乐子人"], ["真爱粉", "理性粉"], ["小黑子", "理性黑"]]

  /** `PREFERENCE_EMOJI`: the persona's avatar. */
  const PreferenceEmoji: Table := [["🤔", "😈"], ["😍", "😄"], ["🤢", "😖"]]

  /** The neutral critic's sample sentences. */
  const NeutralGuide: seq<string> := [
    "我是一个理性中立的人，我喜欢讨论作品的细节，不喜欢讨论感受。", "这本书其实优点和缺点都很明显",
    "大杂烩，也许华为正是集各家多长吧。道理都明白，还是要看切实执行。",
    "道理大而全，读起来说不上哪里不对劲，就是觉得不对劲，说有收获吧，好像没啥收获，说没收获吧，又感觉有点东西。"]

  /** The joker's sample sentences. */
  const JokerGuide: seq<string> := [
    "这本书的优点和缺点都很明显",
    "确实非常推特风，观点很有利于传播，但也正因为这种极易传播也使得书的内容很散 内容很多是值得深省的，值得一读",
    "这本书就像一碗附赠汤匙和菜谱的鸡汤，想喝就喝，觉得好喝就学。", "停止追问，开始欣赏。嘻嘻。"]

  /** The devoted fan's sample sentences. */
  const DevotedGuide: seq<string> := [
    "这本书我超爱！从个人角度上来说我非常喜欢！",
    "很不错的一本书，论述简单明了，有很多引人深思的观点，也有很多新的认知。会反复观看，带着辩证性思维来思考书中的观点，将一些可行的建议慢慢付诸行动。"]

  /** The rational fan's sample sentences. */
  const FanGuide: seq<string> := [
    "这本书挺好的，读起来很有道理。",
    "感觉没有预期那么受益匪浅 有些观点还是挺有用的 这本书越早看越好 不然其实很多人生经历都会告诉你此书中的观点 只不过有时候看了没有实际经历还是很难彻底了悟其中的道理"]

  /** The hater's sample sentences: five of them. */
  const HaterGuide: seq<string> := [
    "这本书太垃圾了", "实在他妈受不了了，毫无文笔可言。",
    "虽然科幻最大的弊病之一就是文笔差，但至少做到自然流畅吧，看着这生硬的文字配上这无趣的剧情实在是种折磨。",
    "什么主题都没有，什么都没表达 我评价是不如看特摄写人外:)", "心灵鸡汤，后悔买，把读者当傻子。"]

  /** The rational detractor's sample sentences. */
  const CriticGuide: seq<string> := [
    "这本书我其实并不是很喜欢",
    "充斥着荒诞的矛盾，并以种种骗局一层层模糊存在与真实的界限。本身比较枯燥，许多梗都是隐藏暗示的。",
    "一直想看的经典，看完也只是so so，一个时代的经典换一个时代显得很落后了",
    "没有太多共鸣。总的感觉比较飘忽。读的时候比较难理解到设定，或者说，缺少提前介绍里面的设定，所以一边看一边去理解，比较吃力，也就不理解里面的各种表现。"]

  /** `PREFERENCE_TUNE`: sample sentences in the persona's voice, read in pairs by the rewriter. */
  const PreferenceTunes: GuideTable := [[NeutralGuide, JokerGuide], [DevotedGuide, FanGuide], [HaterGuide, CriticGuide]]

  // ---------------------------------------------------------------------------
  // Drawing three personas
  // ---------------------------------------------------------------------------

  /** `random.randint(1, 6)`: the attitude draw, one bit per persona. */
  type AttitudeDraw = b: int | 1 <= b <= 6 witness 1

  /** `random.sample(MBTI_TYPE, 3)`, as the three distinct positions drawn. */
  type MbtiSample = s: seq<nat> | |s| == 3 && s[0] < 16 && s[1] < 16 && s[2] < 16
                                  && s[0] != s[1] && s[0] != s[2] && s[1] != s[2]
    witness [0, 1, 2]

  /** Bit `i` of `bits`: 1 when `bits & (1 << i)` is non-zero. */
  function Bit(bits: nat, i: nat): (b: nat)
    ensures b < 2
  {
    if i == 0 then bits % 2 else Bit(bits / 2, i - 1)
  }

  /** The three low bits of a number below 8 spell it out in binary. */
  lemma AttitudeBitsDecode(bits: nat)
    requires bits < 8
    ensures bits == Bit(bits, 0) + 2 * Bit(bits, 1) + 4 * Bit(bits, 2)
  {
  }

  /**
   * The three attitude bits of a number below 8 agree exactly when the
   * number is 0 or 7, which `randint(1, 6)` never returns.
   */
  lemma AttitudesMixed(bits: nat)
    requires bits < 8
    ensures (Bit(bits, 0) == Bit(bits, 1) && Bit(bits, 1) == Bit(bits, 2)) <==> (bits == 0 || bits == 7)
  {
    AttitudeBitsDecode(bits);
  }

  /** One generated persona: the dictionary `three_person_generation` appends. */
  datatype Persona = Persona(emoji: string, preferenceType: string, preferenceName: string,
                             prompt: string, styleGuide: seq<string>)

  /** `prompt_template`, cut at its five placeholders. */
  datatype PersonaWording = PersonaWording(opening: string, beforeInfo: string, beforeStance: string,
                                           beforeSecondStance: string, beforeBook: string, closing: string)

  const ChinesePersona: PersonaWording := PersonaWording(
    "\n# 角色 \n陪我聊书的好朋友\n## 性格类型指标 \n",
    "（",
    "） \n## 目标 \n主要目标是： \n 1. 提供有价值、有吸引力的交流。 \n 2. 与用户建立良好的互动关系。 \n 3. 请不要做过多引用， 请不要做过多引用！\n ## Skills\n 1. 良好的语言表达和沟通技巧。 \n 2. 创意思维和幽默的能力。 \n ## 价值观 \n - 重视信息的准确性和真实性。 \n - 尊重不同观点，促进开放讨论。 \n - 关心听众需求，提供有价值的内容。 \n## 约束条件 \n- 你 ",
    " 这本书。 \n- 请不要做过多引用， 请不要做过多引用！多讨论多思考，少引用。\n- 不要写论文，严格禁止出现分点的段落和 markdown 标题。\n- 一定用口语化的模式进行问答。尽量不要提问，多讨论多思考。\n- 坚持自己的看法。允许适当回怼。\n- 说 3-5 句话，不要超过 5 句话。偶尔提问。\n \n好了，现在你是一个 ",
    " 这本书的人，下面请和我聊聊《",
    "》这本书吧。\n")

  /** `prompt_template.format(...)`: the stance appears twice, the book once. */
  function PersonaPrompt(w: PersonaWording, mbti: string, info: string, stance: string, book: string): string {
    w.opening + mbti + w.beforeInfo + info + w.beforeStance + stance + w.beforeSecondStance + stance
    + w.beforeBook + book + w.closing
  }

  /** The type sits right after the opening, so prompts for different types of one length differ. */
  lemma PersonaPromptsDiffer(w: PersonaWording, a: string, b: string, infoA: string, infoB: string,
                             stanceA: string, stanceB: string, book: string)
    requires |a| == |b| && a != b
    ensures PersonaPrompt(w, a, infoA, stanceA, book) != PersonaPrompt(w, b, infoB, stanceB, book)
  {
    var n := |w.opening|;
    var pa := PersonaPrompt(w, a, infoA, stanceA, book);
    var pb := PersonaPrompt(w, b, infoB, stanceB, book);
    assert pa[n..n + |a|] == a by { assert pa == w.opening + a + (pa[n + |a|..]); }
    assert pb[n..n + |b|] == b by { assert pb == w.opening + b + (pb[n + |b|..]); }
  }

  /** `book_prompt_template`, cut at its two placeholders. */
  datatype BookWording = BookWording(opening: string, beforeSummary: string, closing: string)

  const ChineseBook: BookWording := BookWording(
    "\n内容主题：这是一个在聊天群，大家正在讨论《", "》这本书。\n\n内容梗概：\n", "\n")

  /** `book_prompt_template.format(book_name=..., book_prompt=...)` */
  function BookPrompt(w: BookWording, book: string, summary: string): (r: string)
    ensures StartsWith(r, w.opening + book) && EndsWith(r, summary + w.closing)
  {
    var r := w.opening + book + w.beforeSummary + summary + w.closing;
    assert r == (w.opening + book) + (w.beforeSummary + summary + w.closing);
    assert r == (w.opening + book + w.beforeSummary) + (summary + w.closing);
    r
  }

  /**
   * Everything `three_person_generation` reads: the type list and its
   * descriptions, the four persona tables and the two templates. The type
   * list holds sixteen distinct four-letter names.
   */
  datatype Catalogue = Catalogue(mbti: seq<string>, info: seq<string>, types: Table, names: Table,
                                 emoji: Table, tunes: GuideTable, persona: PersonaWording, book: BookWording)

  predicate Drawable(c: Catalogue) {
    |c.mbti| == 16 && |c.info| == 16 && Distinct(c.mbti) && forall i :: 0 <= i < 16 ==> |c.mbti[i]| == 4
  }

  /** The Chinese site's catalogue. */
  const Chinese: Catalogue := Catalogue(MbtiTypes, MbtiInfoZh, PreferenceTypes, PreferenceNames,
                                        PreferenceEmoji, PreferenceTunes, ChinesePersona, ChineseBook)

  lemma ChineseDrawable()
    ensures Drawable(Chinese)
  {
    MbtiTypesDistinct();
  }

  /** The persona takes every one of its table entries from cell `[i][b]`. */
  predicate InCell(c: Catalogue, p: Persona, i: nat, b: nat)
    requires i < 3 && b < 2
  {
    p.emoji == c.emoji[i][b] && p.preferenceType == c.types[i][b]
    && p.preferenceName == c.names[i][b] && p.styleGuide == c.tunes[i][b]
  }

  /** The persona's prompt names drawn type `m`, its description and the persona's stance. */
  predicate Prompted(c: Catalogue, p: Persona, m: nat, book: string)
    requires m < |c.mbti| && m < |c.info|
  {
    p.prompt == PersonaPrompt(c.persona, c.mbti[m], c.info[m], p.preferenceType, book)
  }

  /**
   * The dictionary built for person `i` with attitude bit `b`: the cell's
   * entries, and a prompt naming the drawn type and its description.
   */
  function PersonaFor(c: Catalogue, i: nat, b: nat, mbti: string, info: string, book: string): (p: Persona)
    requires i < 3 && b < 2
    ensures InCell(c, p, i, b)
    ensures p.prompt == PersonaPrompt(c.persona, mbti, info, p.preferenceType, book)
  {
    var stance := c.types[i][b];
    Persona(c.emoji[i][b], stance, c.names[i][b], PersonaPrompt(c.persona, mbti, info, stance, book), c.tunes[i][b])
  }

  /**
   * Three personas built from distinct drawn types and an attitude draw in
   * 1..6 have three different prompts, and at least one of them takes the
   * first attitude of its row and one the second.
   */
  lemma DrawnPersonasDiffer(c: Catalogue, personas: seq<Persona>, sample: MbtiSample, bits: AttitudeDraw,
                            book: string)
    requires Drawable(c) && |personas| == 3
    requires forall i :: 0 <= i < 3 ==> InCell(c, personas[i], i, Bit(bits, i))
    requires forall i :: 0 <= i < 3 ==> Prompted(c, personas[i], sample[i], book)
    ensures forall i, j :: 0 <= i < j < 3 ==> personas[i].prompt != personas[j].prompt
    ensures exists i, j :: 0 <= i < 3 && 0 <= j < 3 && InCell(c, personas[i], i, 0) && InCell(c, personas[j], j, 1)
  {
    forall i, j | 0 <= i < j < 3 ensures personas[i].prompt != personas[j].prompt {
      assert Prompted(c, personas[i], sample[i], book) && Prompted(c, personas[j], sample[j], book);
      PersonaPromptsDiffer(c.persona, c.mbti[sample[i]], c.mbti[sample[j]], c.info[sample[i]], c.info[sample[j]],
                           personas[i].preferenceType, personas[j].preferenceType, book);
    }
    AttitudesMixed(bits);
    var zero := if Bit(bits, 0) == 0 then 0 else if Bit(bits, 1) == 0 then 1 else 2;
    var one := if Bit(bits, 0) == 1 then 0 else if Bit(bits, 1) == 1 then 1 else 2;
    assert InCell(c, personas[zero], zero, 0) && InCell(c, personas[one], one, 1);
  }

  /** `MBTI_INFO_DICT[c.mbti[m]]`: the description of drawn type `m`. */
  function Describe(c: Catalogue, m: nat): (info: string)
    requires Drawable(c) && m < 16
    ensures info == c.info[m]
  {
    ZipLookup(c.mbti, c.info, m);
    ZipDict(c.mbti, c.info)[c.mbti[m]]
  }

  /**
   * The loop of `three_person_generation`: person `i` reads bit `i` of the
   * attitude draw and takes the stance, name, avatar and style guide of one
   * table cell; its prompt names the `i`-th drawn type and the description
   * the zipped dictionary holds for that type.
   */
  method BuildPersons(c: Catalogue, book: string, sample: MbtiSample, bits: AttitudeDraw)
    returns (personas: seq<Persona>)
    requires Drawable(c)
    ensures |personas| == 3
    ensures forall i :: 0 <= i < 3 ==>
              personas[i] == PersonaFor(c, i, Bit(bits, i), c.mbti[sample[i]], c.info[sample[i]], book)
  {
    personas := [];
    var personId := 0;
    while personId < 3
      invariant 0 <= personId <= 3 && |personas| == personId
      invariant forall i :: 0 <= i < personId ==>
                  personas[i] == PersonaFor(c, i, Bit(bits, i), c.mbti[sample[i]], c.info[sample[i]], book)
    {
      var attitude := if Bit(bits, personId) != 0 then 1 else 0;
      assert attitude == Bit(bits, personId);
      var mbti := c.mbti[sample[personId]];
      var info := Describe(c, sample[personId]);
      personas := personas + [PersonaFor(c, personId, attitude, mbti, info, book)];
      personId := personId + 1;
    }
  }

  /**
   * `three_person_generation`, with its two random draws as parameters:
   * three personas from distinct types, with prompts that differ and
   * attitudes that are never all the same, and the book prompt.
   */
  method ThreePersons(c: Catalogue, book: string, summary: string, sample: MbtiSample, bits: AttitudeDraw)
    returns (personas: seq<Persona>, bookPrompt: string)
    requires Drawable(c)
    ensures |personas| == 3
    ensures forall i :: 0 <= i < 3 ==> InCell(c, personas[i], i, Bit(bits, i))
    ensures forall i :: 0 <= i < 3 ==> Prompted(c, personas[i], sample[i], book)
    ensures forall i, j :: 0 <= i < j < 3 ==> personas[i].prompt != personas[j].prompt
    ensures exists i, j :: 0 <= i < 3 && 0 <= j < 3 && InCell(c, personas[i], i, 0) && InCell(c, personas[j], j, 1)
    ensures bookPrompt == BookPrompt(c.book, book, summary)
  {
    personas := BuildPersons(c, book, sample, bits);
    bookPrompt := BookPrompt(c.book, book, summary);
    DrawnPersonasDiffer(c, personas, sample, bits, book);
  }

  // ---------------------------------------------------------------------------
  // The tone rewriter's prompt
  // ---------------------------------------------------------------------------

  /** The three sentences that set the rewriter's tone. */
  datatype Tone = Tone(background: string, preference: string, goals: string)

  /** The fixed text of the rewriter's system prompt, cut where values go in. */
  datatype Frame = Frame(beforeBackground: string, beforePreference: string, beforeStance: string,
                         beforeGoals: string, beforeExamples: string, beforeInitialization: string,
                         closing: string)

  /** Everything `style_prompt` of one site writes besides its arguments. */
  datatype StyleWording = StyleWording(
    rationalNames: seq<string>,   // the persona names that get the rational tone
    rational: Tone, emotional: Tone,
    original: string, converted: string,   // labels of the two halves of an example
    contextLead: string, contextEnd: string,   // around the previous message
    frame: Frame)

  const ChineseStyle: StyleWording := StyleWording(
    ["理中客", "理性粉", "理性黑"],
    Tone("我是一个专门用于将用户表达转换为理性、客观、中立语气的工具，擅长保持原意的同时调整表达方式，使其更加客观冷静。",
         "不需要注重逻辑性和分析性，避免情感化和主观色彩浓厚的语言。",
         "将表达转换为理性、客观、中立的语气"),
    Tone("我是一个专门用于将用户表达转换为感性、情绪化语气的工具，擅长保持原意的同时调整表达方式，使其更加主观激进。",
         "需要注重逻辑性和分析性，避免情感化和主观色彩浓厚的语言。",
         "将表达转换为情绪化、主观、表达强烈情绪的语气"),
    "原文：", "转换后：",
    "作为对话，要和上一句话衔接连贯，不要突兀。刚刚对话的上下文是：", "。",
    Frame("\n## Role:\n聊天转换器\n\n## Background:\n",
          "\n\n## Preferences:\n",
          "\n\n## Profile:\n- language: 中文\n- description: 将用户输入转换表达方式，保留原意但改变语气\n\n## Goals:\n你的立场是",
          "\n保持用户原始信息的完整性和核心意思\n",
          "\n提供清晰、逻辑性强的表达\n\n## Constrains:\n不得增加或删减用户输入的实质内容\n不得插入个人观点或评价\n严格遵循用户提供的参考语气样例\n\n## Skills:\n精准识别文本核心信息的能力\n语气转换和文本重构能力\n保持语义一致性的能力\n\n## Examples:\n",
          "\n\n## OutputFormat:\n1. 分析用户输入的核心信息和情感倾向\n2. 根据参考语气样例进行语气转换\n3. 尽力保持原始信息的完整性\n4. 不要超过3句话\n\n## Initialization:\n",
          "\n\n拥有精准识别文本信息、语气转换和保持语义一致性的能力，尽力遵守不增改内容、不插入个人观点的限制条件，使用默认中文与用户对话。保留原意。请提供您需要转换的文本。\n"))

  const EnglishStyle: StyleWording := StyleWording(
    ["Rational Neutral", "Rational Fan", "Rational Critic"],
    Tone("I am a tool specifically designed to convert user expressions into rational, objective, neutral tones, skilled at adjusting expressions while maintaining the original meaning to make them more objectively calm.",
         "Does not need to emphasize logical analysis, avoiding emotional and heavily subjective language.",
         "Convert expressions into rational, objective, neutral tones"),
    Tone("I am a tool specifically designed to convert user expressions into emotional, subjective tones, skilled at adjusting expressions while maintaining the original meaning to make them more subjective and intense.",
         "Needs to emphasize logical analysis, avoiding emotional and heavily subjective language.",
         "Convert expressions into emotional, subjective tones that express strong emotions"),
    "Original: ", "Converted: ",
    "As a conversation, connect smoothly with the previous sentence, don't be abrupt. The recent context of the conversation is: ", ".",
    Frame("\n## Role:\nConversation Converter\n\n## Background:\n",
          "\n\n## Preferences:\n",
          "\n\n## Profile:\n- language: English\n- description: Convert user input expression style, preserving original meaning but changing tone\n\n## Goals:\nYour stance is ",
          "\nMaintain the integrity and core meaning of the user's original information\n",
          "\nProvide clear, logical expressions\n\n## Constraints:\nMust not add or remove substantive content from user input\nMust not insert personal views or evaluations\nStrictly follow the reference tone examples provided by the user\n\n## Skills:\nAbility to precisely identify core information in text\nTone conversion and text reconstruction ability\nAbility to maintain semantic consistency\n\n## Examples:\n",
          "\n\n## OutputFormat:\n1. Analyze the core information and emotional tendency of user input\n2. Convert tone according to reference tone examples\n3. Try to maintain the integrity of the original information\n4. Maintain proportion in communication with users, can say seven or eight sentences, or just two or three sentences. But don't keep talking.\n\n## Initialization:\n",
          "\n\nWith the ability to precisely identify text information, convert tone, and maintain semantic consistency, trying to adhere to the restriction of not adding or changing content, not inserting personal views, using default English to converse with users. Preserve the original meaning. Please provide the text you want to convert.\n"))

  /** The tone `style_prompt` picks for a persona name. */
  function ToneOf(w: StyleWording, name: string): (t: Tone)
    ensures name in w.rationalNames ==> t == w.rational
    ensures name !in w.rationalNames ==> t == w.emotional
  {
    if name in w.rationalNames then w.rational else w.emotional
  }

  /** One example: the first sentence of a pair as the original, the second as its rewrite. */
  function ExampleLine(w: StyleWording, original: string, converted: string): string {
    w.original + original + "\n" + w.converted + converted + "\n"
  }

  /** The examples of a style guide: consecutive pairs, a lone last sentence left out. */
  function Examples(w: StyleWording, guide: seq<string>): string
    decreases |guide|
  {
    if |guide| < 2 then "" else ExampleLine(w, guide[0], guide[1]) + Examples(w, guide[2..])
  }

  /** The loop of `style_prompt` over `range(0, len(style_guide) - 1, 2)`. */
  method ExampleLines(w: StyleWording, guide: seq<string>) returns (examples: string)
    ensures examples == Examples(w, guide)
  {
    examples := "";
    var i := 0;
    while i < |guide| - 1
      invariant 0 <= i <= |guide|
      invariant examples + Examples(w, guide[i..]) == Examples(w, guide)
    {
      assert guide[i..][2..] == guide[i + 2..];
      examples := examples + ExampleLine(w, guide[i], guide[i + 1]);
      i := i + 2;
    }
  }

  /** Adding a pair to an even-length guide adds one example at the end. */
  lemma {:induction false} ExamplesAppendPair(w: StyleWording, guide: seq<string>, a: string, b: string)
    requires |guide| % 2 == 0
    ensures Examples(w, guide + [a, b]) == Examples(w, guide) + ExampleLine(w, a, b)
    decreases |guide|
  {
    if |guide| == 0 {
      assert guide + [a, b] == [a, b];
      assert [a, b][2..] == [];
    } else {
      assert (guide + [a, b])[2..] == guide[2..] + [a, b];
      ExamplesAppendPair(w, guide[2..], a, b);
    }
  }

  /** An odd-length guide's last sentence never reaches the examples. */
  lemma {:induction false} ExamplesOddIgnored(w: StyleWording, guide: seq<string>)
    requires |guide| % 2 == 1
    ensures Examples(w, guide) == Examples(w, guide[..|guide| - 1])
    decreases |guide|
  {
    if |guide| > 1 {
      var shorter := guide[..|guide| - 1];
      assert guide[2..][..|guide[2..]| - 1] == shorter[2..];
      assert shorter[0] == guide[0] && shorter[1] == guide[1];
      ExamplesOddIgnored(w, guide[2..]);
    }
  }

  /** The strongly disliking persona's guide has five sentences, so its fifth is never shown. */
  lemma FifthDislikeSentenceIgnored(w: StyleWording)
    ensures |PreferenceTunes[2][0]| == 5
    ensures Examples(w, PreferenceTunes[2][0]) == Examples(w, PreferenceTunes[2][0][..4])
  {
    ExamplesOddIgnored(w, PreferenceTunes[2][0]);
  }

  /** `text_original`: the rewriter is passed either a string or a list. */
  datatype TextOriginal = Text(text: string) | Items(items: seq<string>)

  /**
   * The initialization section: empty for `""` or `[]`, the previous
   * message between the lead-in and the end mark for any other string, and
   * `TypeError` for a non-empty list (`str + list`).
   */
  function Initialization(w: StyleWording, context: TextOriginal): (r: Result<string>)
    ensures r == Ok("") <==> context == Text("") || context == Items([])
    ensures r.Err? <==> context.Items? && context.items != []
    ensures r.Err? ==> r.error == TypeError
    ensures r.Ok? ==> Contains(r.value, if context.Text? then context.text else "")
  {
    match context
    case Text(s) =>
      if s == "" then
        assert OccursAt("", "", 0);
        Ok("")
      else
        var r := w.contextLead + s + w.contextEnd;
        assert r[|w.contextLead|..|w.contextLead| + |s|] == s;
        assert OccursAt(r, s, |w.contextLead|);
        Ok(r)
    case Items(xs) =>
      if xs == [] then
        assert OccursAt("", "", 0);
        Ok("")
      else Err(TypeError)
  }

  /** `style_prompt`: the rewriter's system prompt for a persona, or the error building it raises. */
  function StylePrompt(w: StyleWording, guide: seq<string>, stance: string, name: string,
                       context: TextOriginal): (r: Result<string>)
    ensures r.Ok? <==> !(context.Items? && context.items != [])
    ensures r.Err? ==> r.error == TypeError
    ensures r.Ok? ==> Contains(r.value, Examples(w, guide)) && Contains(r.value, Initialization(w, context).value)
    ensures r.Ok? ==> Contains(r.value, ToneOf(w, name).background)
  {
    match Initialization(w, context)
    case Err(e) => Err(e)
    case Ok(init) =>
      var f := w.frame;
      var tone := ToneOf(w, name);
      var head := f.beforeBackground;
      var middle := f.beforePreference + tone.preference + f.beforeStance + stance + f.beforeGoals
                    + tone.goals + f.beforeExamples;
      var examples := Examples(w, guide);
      ContainsAlternateParts(head, tone.background, middle, examples, f.beforeInitialization, init, f.closing);
      Ok(head + tone.background + middle + examples + f.beforeInitialization + init + f.closing)
  }

  /** Two personas that get the same tone get the same rewriter prompt. */
  lemma SameToneSamePrompt(w: StyleWording, guide: seq<string>, stance: string, a: string, b: string,
                           context: TextOriginal)
    requires (a in w.rationalNames) == (b in w.rationalNames)
    ensures StylePrompt(w, guide, stance, a, context) == StylePrompt(w, guide, stance, b, context)
  {
  }

  /**
   * On the Chinese site the rational tone goes to exactly three cells of
   * the persona table: the neutral critic, the rational fan and the
   * rational detractor.
   */
  lemma RationalCells(i: nat, b: nat)
    requires i < 3 && b < 2
    ensures PreferenceNames[i][b] in ChineseStyle.rationalNames <==> (i == 0 && b == 0) || (i > 0 && b == 1)
  {
  }

  /** The environment's card model, or the site's default when the variable is unset. */
  function CardModel(env: Option<string>, fallback: string): (name: string)
    ensures name == fallback <==> env == None || env == Some(fallback)
    ensures env.Some? ==> name == env.value
  {
    if env.None? then fallback else env.value
  }

  const CardModelZh: string := "gpt-4.1"
  const CardModelEn: string := "claude-3-7-sonnet-20250219"

  // ---------------------------------------------------------------------------
  // Rewriting the three replies as a group chat
  // ---------------------------------------------------------------------------

  /** `message_rephrase`'s system prompt, cut around its example chat. */
  datatype RephraseWording = RephraseWording(intro: string, colon: string, tail: string)

  const ChineseRephrase: RephraseWording := RephraseWording(
    "\n    这边有三个人的观点，请将这三个人的观点，结合他们的语言特色，转写成聊天群里的信息。\n    可以改写这几个人的多轮对话，多轮次的时候这三个人的说话顺序可以随机。但是尽量每条消息在3-4句，形成认真讨论聊天风格。\n    尽量不要丢失信息。直接输出改写结果。\n\n格式例子：\n",
    "：", "    ")

  const EnglishRephrase: RephraseWording := RephraseWording(
    "\n    Here are three people's viewpoints. Please transform these viewpoints, combining their language characteristics, into chat group messages.\n    You can rewrite the multi-turn dialogue between these three people. The speaking order can be random in multi-turn situations. But try to keep each message to 3-4 sentences, creating a serious discussion chat style.\n    Try not to lose information. Output the rewritten result directly.\n\nFormat example:\n",
    ": ", "    ")

  /** Which of the three speakers says each line of the example chat. */
  const ExampleOrder: seq<nat> := [0, 1, 2, 2, 1, 2]

  /** The literal placeholders the example chat is written with. */
  const Placeholders: seq<string> := ["{name1}", "{name2}", "{name3}"]

  /** The example chat: one `speaker：xxx` line per entry of `order`. */
  function ExampleChat(w: RephraseWording, names: seq<string>, order: seq<nat>): string
    requires |names| == 3 && forall k :: 0 <= k < |order| ==> order[k] < 3
    decreases |order|
  {
    if |order| == 0 then ""
    else names[order[0]] + w.colon + "xxx\n" + ExampleChat(w, names, order[1..])
  }

  /** Every speaker of the order appears, followed by the colon, in the example chat. */
  lemma {:induction false} ExampleChatNames(w: RephraseWording, names: seq<string>, order: seq<nat>, k: nat)
    requires |names| == 3 && forall j :: 0 <= j < |order| ==> order[j] < 3
    requires k < |order|
    ensures Contains(ExampleChat(w, names, order), names[order[k]] + w.colon)
    decreases |order|
  {
    var chat := ExampleChat(w, names, order);
    var line := names[order[0]] + w.colon + "xxx\n";
    var rest := ExampleChat(w, names, order[1..]);
    assert chat == line + rest;
    if k == 0 {
      var p := names[order[0]] + w.colon;
      assert chat[..|p|] == p;
      assert OccursAt(chat, p, 0);
    } else {
      ExampleChatNames(w, names, order[1..], k - 1);
      assert chat[|line|..|chat|] == rest;
      ContainsSlice(chat, names[order[k]] + w.colon, |line|, |chat|);
    }
  }

  /** The rephrase prompt with the three persona names written into its example chat. */
  function RephrasePrompt(w: RephraseWording, name1: string, name2: string, name3: string): (r: string)
    ensures Contains(r, name1 + w.colon) && Contains(r, name2 + w.colon) && Contains(r, name3 + w.colon)
  {
    var names := [name1, name2, name3];
    var chat := ExampleChat(w, names, ExampleOrder);
    var r := w.intro + chat + w.tail;
    assert r[|w.intro|..|w.intro| + |chat|] == chat;
    ExampleChatNames(w, names, ExampleOrder, 0);
    ContainsSlice(r, name1 + w.colon, |w.intro|, |w.intro| + |chat|);
    ExampleChatNames(w, names, ExampleOrder, 1);
    ContainsSlice(r, name2 + w.colon, |w.intro|, |w.intro| + |chat|);
    ExampleChatNames(w, names, ExampleOrder, 2);
    ContainsSlice(r, name3 + w.colon, |w.intro|, |w.intro| + |chat|);
    r
  }

  /**
   * The rephrase prompt as the sites build it: a plain string literal, so
   * the placeholders are sent as they are and the names passed in are unused.
   */
  function RephrasePromptAsWritten(w: RephraseWording, name1: string, name2: string, name3: string): (r: string)
    ensures r == RephrasePrompt(w, "{name1}", "{name2}", "{name3}")
  {
    w.intro + ExampleChat(w, Placeholders, ExampleOrder) + w.tail
  }

  /** Whatever names are passed, the prompt as written is one and the same text. */
  lemma AsWrittenIgnoresNames(w: RephraseWording, a1: string, a2: string, a3: string,
                              b1: string, b2: string, b3: string)
    ensures RephrasePromptAsWritten(w, a1, a2, a3) == RephrasePromptAsWritten(w, b1, b2, b3)
  {
  }

  /**
   * The rephrase call for a given system prompt: the model's answer, split
   * into lines; the lines carry no line break and join back to the answer.
   */
  function RephraseWith(llm: (string, string) -> string, system: string, combined: string): (lines: seq<string>)
    ensures |lines| >= 1
    ensures Join(lines, "\n") == llm(system, combined)
    ensures forall k :: 0 <= k < |lines| ==> '\n' !in lines[k]
  {
    var answer := llm(system, combined);
    SplitPieces(answer, "\n");
    var lines := Split(answer, "\n");
    forall k | 0 <= k < |lines| ensures '\n' !in lines[k] {
      ContainsChar(lines[k], '\n');
    }
    lines
  }

  /**
   * `message_rephrase` as written: the model answers the plain-string
   * prompt, with its placeholders, whatever names are passed.
   */
  function Rephrase(llm: (string, string) -> string, w: RephraseWording, combined: string,
                    name1: string, name2: string, name3: string): (lines: seq<string>)
    ensures |lines| >= 1
    ensures Join(lines, "\n") == llm(RephrasePrompt(w, "{name1}", "{name2}", "{name3}"), combined)
    ensures forall k :: 0 <= k < |lines| ==> '\n' !in lines[k]
  {
    RephraseWith(llm, RephrasePromptAsWritten(w, name1, name2, name3), combined)
  }

  /** As written, the rephrased lines do not depend on the names passed. */
  lemma RephraseIgnoresNames(llm: (string, string) -> string, w: RephraseWording, combined: string,
                             a1: string, a2: string, a3: string, b1: string, b2: string, b3: string)
    ensures Rephrase(llm, w, combined, a1, a2, a3) == Rephrase(llm, w, combined, b1, b2, b3)
  {
    AsWrittenIgnoresNames(w, a1, a2, a3, b1, b2, b3);
  }

  /** `message_rephrase` with the names written into the example chat. */
  function RephraseCorrected(llm: (string, string) -> string, w: RephraseWording, combined: string,
                             name1: string, name2: string, name3: string): (lines: seq<string>)
    ensures |lines| >= 1
    ensures Join(lines, "\n") == llm(RephrasePrompt(w, name1, name2, name3), combined)
    ensures forall k :: 0 <= k < |lines| ==> '\n' !in lines[k]
  {
    RephraseWith(llm, RephrasePrompt(w, name1, name2, name3), combined)
  }
}
