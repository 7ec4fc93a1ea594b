/** The batch run of `main`: check the required columns, add the topic,
    score and date columns to the frame, drop the rows whose date did not
    parse, and take the group-by mean.  Reading and writing the CSV files
    and the console messages are outside this model; the loaded table is
    an input and the summary an output. */
module Pipeline {
  import opened Wrappers
  import opened Text
  import opened Topics
  import opened Sentiment
  import opened Aggregate

  /** The two cells of a loaded row that the run reads. */
  datatype Record = Record(fullText: Cell, createdAt: Cell)

  /** The loaded dataset: its column names and its rows. */
  datatype Table = Table(columns: seq<string>, rows: seq<Record>)

  /** The columns that must be present, checked in this order. */
  const RequiredColumns: seq<string> := ["fullText", "createdAt"]

  /** The message of the `ValueError` raised for a missing column. */
  function MissingMessage(col: string): string {
    "Required column '" + col + "' is missing from the dataset."
  }

  /** Required column `i` is the first one absent from `columns`. */
  predicate FirstMissing(columns: seq<string>, i: nat)
    requires i < |RequiredColumns|
  {
    RequiredColumns[i] !in columns && forall j | 0 <= j < i :: RequiredColumns[j] in columns
  }

  /** Step 2: the loop over the required columns, failing on the first one
      that is absent. */
  method CheckColumns(columns: seq<string>) returns (outcome: Outcome<string>)
    ensures outcome.Pass? <==> forall c | c in RequiredColumns :: c in columns
    ensures outcome.Fail? ==>
      exists i | 0 <= i < |RequiredColumns| :: FirstMissing(columns, i) && outcome.error == MissingMessage(RequiredColumns[i])
  {
    for i := 0 to |RequiredColumns|
      invariant forall j | 0 <= j < i :: RequiredColumns[j] in columns
    {
      if RequiredColumns[i] !in columns {
        return Fail(MissingMessage(RequiredColumns[i]));
      }
    }
    return Pass;
  }

  /** The `fullText` column of the loaded rows. */
  function TextColumn(rows: seq<Record>): seq<Cell> {
    seq(|rows|, i requires 0 <= i < |rows| => rows[i].fullText)
  }

  /** The `createdAt` column of the loaded rows. */
  function CreatedColumn(rows: seq<Record>): seq<Cell> {
    seq(|rows|, i requires 0 <= i < |rows| => rows[i].createdAt)
  }

  /** `df["fullText"].apply(classify_topic)`. */
  function TopicColumn(texts: seq<Cell>): seq<string> {
    seq(|texts|, i requires 0 <= i < |texts| => ClassifyTopic(texts[i]))
  }

  /** `df["fullText"].apply(lambda txt: get_sentiment_score(txt, pipeline))`. */
  function ScoreColumn(texts: seq<Cell>, model: string -> string): seq<real> {
    seq(|texts|, i requires 0 <= i < |texts| => SentimentScore(texts[i], model))
  }

  /** `pd.to_datetime(df["createdAt"], errors='coerce').dt.date`, with the
      timestamp parser as a parameter: None stands for NaT. */
  function DateColumn(created: seq<Cell>, parse: Cell -> Option<Date>): seq<Option<Date>> {
    seq(|created|, i requires 0 <= i < |created| => parse(created[i]))
  }

  /** The data frame of `main`, whose columns the run adds and whose rows it
      drops in place.  Only the columns the run reads or adds are kept. */
  class Frame {
    var columns: seq<string>
    var fullText: seq<Cell>
    var createdAt: seq<Cell>
    var topic: seq<string>
    var sentimentScore: seq<real>
    var date: seq<Option<Date>>

    /** The loaded columns have one entry per row. */
    ghost predicate Valid()
      reads this
    {
      |createdAt| == |fullText|
    }

    /** The three added columns are present, one entry per row. */
    ghost predicate Enriched()
      reads this
    {
      Valid() && |topic| == |fullText| && |sentimentScore| == |fullText| && |date| == |fullText|
    }

    /** `pd.read_csv` has produced `table`. */
    constructor (table: Table)
      ensures Valid()
      ensures columns == table.columns
      ensures fullText == TextColumn(table.rows) && createdAt == CreatedColumn(table.rows)
      ensures topic == [] && sentimentScore == [] && date == []
    {
      columns := table.columns;
      fullText := TextColumn(table.rows);
      createdAt := CreatedColumn(table.rows);
      topic, sentimentScore, date := [], [], [];
    }

    /** The column list after assigning `df[name]`. */
    static function WithColumn(columns: seq<string>, name: string): (r: seq<string>)
      ensures name in r
      ensures forall c | c in columns :: c in r
      ensures forall c | c in r :: c in columns || c == name
    {
      if name in columns then columns else columns + [name]
    }

    /** Step 3: `df["topic"] = df["fullText"].apply(classify_topic)`. */
    method AddTopicColumn()
      requires Valid()
      modifies this
      ensures Valid()
      ensures topic == TopicColumn(fullText)
      ensures columns == WithColumn(old(columns), "topic")
      ensures fullText == old(fullText) && createdAt == old(createdAt)
      ensures sentimentScore == old(sentimentScore) && date == old(date)
    {
      topic := TopicColumn(fullText);
      columns := WithColumn(columns, "topic");
    }

    /** Step 5: `df["sentiment_score"] = ...apply(get_sentiment_score)`. */
    method AddSentimentColumn(model: string -> string)
      requires Valid()
      modifies this
      ensures Valid()
      ensures sentimentScore == ScoreColumn(fullText, model)
      ensures columns == WithColumn(old(columns), "sentiment_score")
      ensures fullText == old(fullText) && createdAt == old(createdAt)
      ensures topic == old(topic) && date == old(date)
    {
      sentimentScore := ScoreColumn(fullText, model);
      columns := WithColumn(columns, "sentiment_score");
    }

    /** Step 6, first line: `df["date"] = pd.to_datetime(...).dt.date`. */
    method AddDateColumn(parse: Cell -> Option<Date>)
      requires Valid()
      modifies this
      ensures Valid()
      ensures date == DateColumn(createdAt, parse)
      ensures columns == WithColumn(old(columns), "date")
      ensures fullText == old(fullText) && createdAt == old(createdAt)
      ensures topic == old(topic) && sentimentScore == old(sentimentScore)
    {
      date := DateColumn(createdAt, parse);
      columns := WithColumn(columns, "date");
    }

    /** Step 6, second line: `df.dropna(subset=["date"], inplace=True)`.
        Every column loses the same rows: those whose date is missing. */
    method DropUndated()
      requires Enriched()
      modifies this
      ensures Enriched()
      ensures forall j | 0 <= j < |date| :: date[j].Some?
      ensures fullText == KeepDated(old(fullText), old(date))
      ensures createdAt == KeepDated(old(createdAt), old(date))
      ensures topic == KeepDated(old(topic), old(date))
      ensures sentimentScore == KeepDated(old(sentimentScore), old(date))
      ensures date == KeepDated(old(date), old(date))
      ensures columns == old(columns)
    {
      KeepDatedAllDated(date);
      fullText := KeepDated(fullText, date);
      createdAt := KeepDated(createdAt, date);
      topic := KeepDated(topic, date);
      sentimentScore := KeepDated(sentimentScore, date);
      date := KeepDated(date, date);
    }
  }

  /** The topic of every loaded row. */
  function TopicsOf(table: Table): seq<string> {
    TopicColumn(TextColumn(table.rows))
  }

  /** The score of every loaded row. */
  function ScoresOf(table: Table, model: string -> string): seq<real> {
    ScoreColumn(TextColumn(table.rows), model)
  }

  /** The parsed date of every loaded row. */
  function DatesOf(table: Table, parse: Cell -> Option<Date>): seq<Option<Date>> {
    DateColumn(CreatedColumn(table.rows), parse)
  }

  /** `main` from the loaded table to the summary table.  The loaded frame's
      columns are checked first: a missing required column aborts the run
      with its error before any row is processed;
      otherwise the result is the group-by mean of the dated rows. */
  method RunPipeline(table: Table, model: string -> string, parse: Cell -> Option<Date>)
    returns (result: Result<seq<SummaryRow>, string>)
    ensures result.Failure? <==> exists c | c in RequiredColumns :: c !in table.columns
    ensures result.Failure? ==>
      exists i | 0 <= i < |RequiredColumns| :: FirstMissing(table.columns, i) && result.error == MissingMessage(RequiredColumns[i])
    ensures result.Success? ==> IsGroupMean(result.value, TopicsOf(table), DatesOf(table, parse), ScoresOf(table, model))
    ensures result.Success? ==> forall i | 0 <= i < |result.value| ::
      && -1.0 <= result.value[i].mean <= 1.0
      && result.value[i].topic in TopicLabels
      && exists r | 0 <= r < |table.rows| ::
           && parse(table.rows[r].createdAt) == Some(result.value[i].date)
           && ClassifyTopic(table.rows[r].fullText) == result.value[i].topic
  {
    var df := new Frame(table);
    var columns := df.columns;
    var check := CheckColumns(columns);
    assert columns == table.columns;
    if check.Fail? {
      return Failure(check.error);
    }
    df.AddTopicColumn();
    df.AddSentimentColumn(model);
    df.AddDateColumn(parse);
    ghost var topic, date, score := df.topic, df.date, df.sentimentScore;
    df.DropUndated();
    var summary := GroupMean(df.topic, df.date, df.sentimentScore);
    GroupMeanIgnoresUndated(summary, topic, date, score);
    MeansInRange(summary, topic, date, score);
    SummaryKeysFromRows(summary, topic, date, score);
    return Success(summary);
  }
}
