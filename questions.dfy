/** The records question_loader.py builds, one per row of a language's `validated.tsv`. */
module Questions {

  /** A corpus row: the three columns the pipeline reads, and every other column as is. */
  datatype Row = Row(path: string, sentence: string, locale: string, columns: map<string, string>)

  /**
   * A question: its row, the clip's duration in seconds, the speech rate, the tokens in
   * sentence order (duplicates kept) and, per distinct token, its distractor words.
   * Before tokenization `tokenized` is empty; before assignment `distractors` is empty.
   */
  datatype Question = Question(
    row: Row,
    audioLength: real,
    charsSec: real,
    tokenized: seq<string>,
    distractors: map<string, set<string>>)
}
