/** The fixed "opposite" tables and the choice of the character's target
    gender and emotion from what the photo analysis detected, with the
    manual pick used when the analysis could not tell. */
module Opposites {
  import opened PyStr

  /** The value the analysis reports when it could not tell. */
  const UNKNOWN: string := "unknown"

  /** The emotion fallback, used when the emotion is not in the table. */
  const EMOTION_FALLBACK: string := "neutral"

  /** The gender fallback, used when the gender is not in the table. */
  const GENDER_FALLBACK: string := "Other"

  const OPPOSITE_EMOTION: map<string, string> := map[
    "angry" := "calm",
    "happy" := "sad",
    "sad" := "happy",
    "fear" := "confident",
    "disgust" := "admiration",
    "surprise" := "boredom",
    "neutral" := "emotional",
    "contempt" := "respectful"
  ]

  const OPPOSITE_GENDER: map<string, string> := map[
    "Man" := "Woman",
    "Woman" := "Man",
    "Other" := "Other"
  ]

  /** Every emotion in the table is written in lower case, so lowering a key
      gives the key back. */
  lemma EmotionKeysAreLower()
    ensures forall e :: e in OPPOSITE_EMOTION ==> Lower(e) == e
  {
    forall e | e in OPPOSITE_EMOTION ensures Lower(e) == e {
      assert NoAsciiUpper(e);
    }
  }

  /** `OPPOSITE_EMOTION.get(emotion.lower(), 'neutral')`: the lookup ignores
      the case of ASCII letters, gives the table's entry for a known
      emotion and the fallback for any other text. */
  function OppositeEmotion(emotion: string): (r: string)
    ensures r in OPPOSITE_EMOTION.Values || r == EMOTION_FALLBACK
    ensures Lower(emotion) in OPPOSITE_EMOTION ==> r == OPPOSITE_EMOTION[Lower(emotion)]
    ensures Lower(emotion) !in OPPOSITE_EMOTION ==> r == EMOTION_FALLBACK
  {
    var key := Lower(emotion);
    if key in OPPOSITE_EMOTION then OPPOSITE_EMOTION[key] else EMOTION_FALLBACK
  }

  /** Every opposite in the emotion table is written in lower case too. */
  lemma EmotionValuesAreLower()
    ensures forall o :: o in OPPOSITE_EMOTION.Values ==> Lower(o) == o
  {
    forall o | o in OPPOSITE_EMOTION.Values ensures Lower(o) == o {
      assert NoAsciiUpper(o);
    }
  }

  /** For every emotion of the table the lookup gives its table entry. Going
      through the lookup twice brings back happy and sad, which are each
      other's opposite, and neutral, whose opposite "emotional" is not in the
      table and falls back to "neutral"; every other emotion is lost. */
  lemma OppositeEmotionOfKnown(emotion: string)
    requires emotion in OPPOSITE_EMOTION
    ensures OppositeEmotion(emotion) == OPPOSITE_EMOTION[emotion]
    ensures OppositeEmotion(OppositeEmotion(emotion)) == emotion <==>
              emotion == "happy" || emotion == "sad" || emotion == "neutral"
  {
    var o := OPPOSITE_EMOTION[emotion];
    assert Lower(emotion) == emotion by { EmotionKeysAreLower(); }
    assert Lower(o) == o by {
      assert o in OPPOSITE_EMOTION.Values;
      EmotionValuesAreLower();
    }
    TableOpposites(emotion);
    assert OppositeEmotion(emotion) == o;
    if o in OPPOSITE_EMOTION {
      assert OppositeEmotion(o) == OPPOSITE_EMOTION[o];
    } else {
      assert OppositeEmotion(o) == EMOTION_FALLBACK;
    }
  }

  /** Of the table's opposites, only those of happy and sad are themselves
      emotions of the table, and those two are each other's opposite. */
  lemma TableOpposites(emotion: string)
    requires emotion in OPPOSITE_EMOTION
    ensures OPPOSITE_EMOTION[emotion] in OPPOSITE_EMOTION <==> emotion == "happy" || emotion == "sad"
    ensures OPPOSITE_EMOTION[emotion] in OPPOSITE_EMOTION ==> OPPOSITE_EMOTION[OPPOSITE_EMOTION[emotion]] == emotion
  {
  }

  /** `OPPOSITE_GENDER.get(gender, 'Other')`: always one of the three table
      genders, and a known gender never maps to itself except "Other". */
  function OppositeGender(gender: string): (r: string)
    ensures r in OPPOSITE_GENDER
    ensures gender in OPPOSITE_GENDER ==> r == OPPOSITE_GENDER[gender] && (r == gender <==> gender == "Other")
    ensures gender !in OPPOSITE_GENDER ==> r == GENDER_FALLBACK
  {
    if gender in OPPOSITE_GENDER then OPPOSITE_GENDER[gender] else GENDER_FALLBACK
  }

  /** The gender table is an involution: applying it twice to any of its
      genders gives that gender back, and applying it twice to any text at
      all gives a gender of the table. */
  lemma OppositeGenderInvolution(gender: string)
    ensures gender in OPPOSITE_GENDER ==> OppositeGender(OppositeGender(gender)) == gender
    ensures OppositeGender(OppositeGender(gender)) in OPPOSITE_GENDER
  {
  }

  datatype Targets = Targets(gender: string, emotion: string)

  /** The emotion the page goes on with: the detected one, unless the
      analysis reported "unknown", in which case the manual pick. */
  function ResolveEmotion(detected: string, picked: string): string {
    if detected == UNKNOWN then picked else detected
  }

  /** The gender the page goes on with, chosen the same way. */
  function ResolveGender(detected: string, picked: string): string {
    if detected == UNKNOWN then picked else detected
  }

  /** The character's target gender and emotion: the opposites of the
      resolved ones. A failed analysis makes both targets depend only on the
      manual picks; the target gender is always a gender of the table. */
  function CharacterTargets(detectedEmotion: string, detectedGender: string,
                            pickedEmotion: string, pickedGender: string): (t: Targets)
    ensures t.gender in OPPOSITE_GENDER
    ensures t.emotion in OPPOSITE_EMOTION.Values || t.emotion == EMOTION_FALLBACK
    ensures detectedEmotion == UNKNOWN && pickedEmotion in OPPOSITE_EMOTION ==>
              t.emotion == OPPOSITE_EMOTION[pickedEmotion]
    ensures detectedGender == UNKNOWN && pickedGender in OPPOSITE_GENDER ==>
              t.gender == OPPOSITE_GENDER[pickedGender]
    ensures detectedEmotion != UNKNOWN ==> t.emotion == OppositeEmotion(detectedEmotion)
    ensures detectedGender != UNKNOWN ==> t.gender == OppositeGender(detectedGender)
  {
    EmotionKeysAreLower();
    Targets(OppositeGender(ResolveGender(detectedGender, pickedGender)),
            OppositeEmotion(ResolveEmotion(detectedEmotion, pickedEmotion)))
  }
}
