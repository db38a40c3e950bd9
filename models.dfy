/** Which model repository a transcription request runs (server.py:110-135,
    495-507): the language may rewrite the model key and the task, and the
    key is then looked up in the table of the platform. */
module Models {

  const WinModels: map<string, string> := map[
    "tiny" := "tiny",
    "base" := "base",
    "small" := "small",
    "medium" := "medium",
    "large" := "large-v3-turbo",
    "tiny.en" := "tiny.en",
    "base.en" := "base.en",
    "small.en" := "small.en",
    "medium.en" := "medium.en",
    "large.en" := "large-v3-turbo"
  ]

  const MacModels: map<string, string> := map[
    "tiny" := "mlx-community/whisper-tiny-mlx",
    "base" := "mlx-community/whisper-base-mlx-q4",
    "small" := "mlx-community/whisper-small-mlx",
    "medium" := "mlx-community/whisper-medium-mlx",
    "large" := "mlx-community/whisper-large-v3-turbo",
    "tiny.en" := "mlx-community/whisper-tiny.en-mlx",
    "base.en" := "mlx-community/whisper-base.en-mlx",
    "small.en" := "mlx-community/whisper-small.en-mlx",
    "medium.en" := "mlx-community/whisper-medium.en-mlx",
    "large.en" := "mlx-community/whisper-large-v3-turbo",
    "large.de" := "mlx-community/whisper-large-v3-turbo-german-f16"
  ]

  /** The model sizes a client picks from. */
  const Sizes: set<string> := {"tiny", "base", "small", "medium", "large"}

  function Table(isWindows: bool): map<string, string> {
    if isWindows then WinModels else MacModels
  }

  /** The engine arguments chosen for the request. */
  datatype Resolution = Resolution(key: string, repo: string, task: string)

  /** The dictionary lookup fails with a `KeyError` on the rewritten key. */
  datatype ResolveError = UnknownModel(key: string)

  datatype Resolved = Ok(value: Resolution) | Err(error: ResolveError)

  /** The model key after the language rule, and the task that goes with it. */
  function KeyAndTask(model: string, language: string, task: string, isWindows: bool): (string, string) {
    if language == "en" then (model + ".en", "transcribe")
    else if language == "de" && model == "large" && !isWindows then (model + ".de", task)
    else (model, task)
  }

  /** The resolution of `transcribe`: English appends `.en` and forces the
      plain transcription task, German with the large model off Windows
      appends `.de`, anything else passes model and task through; the key
      must be in the platform's table. */
  function Resolve(model: string, language: string, task: string, isWindows: bool): (r: Resolved)
    ensures r.Ok? <==> KeyAndTask(model, language, task, isWindows).0 in Table(isWindows)
    ensures r.Ok? ==> r.value.key in Table(isWindows) && r.value.repo == Table(isWindows)[r.value.key]
    ensures r.Ok? ==> language == "en" ==> r.value.key == model + ".en" && r.value.task == "transcribe"
    ensures r.Ok? ==> language != "en" ==> r.value.task == task
    ensures r.Ok? ==> language != "en" && !(language == "de" && model == "large" && !isWindows) ==> r.value.key == model
    ensures r.Err? ==> r.error.key == KeyAndTask(model, language, task, isWindows).0 && r.error.key !in Table(isWindows)
  {
    var (key, t) := KeyAndTask(model, language, task, isWindows);
    if key in Table(isWindows) then Ok(Resolution(key, Table(isWindows)[key], t)) else Err(UnknownModel(key))
  }

  /** Every size resolves, whatever the language, the task and the platform:
      each table holds every size and its English variant, and the German
      key is only formed where the macOS table has it. */
  lemma {:induction false} EverySizeResolves(model: string, language: string, task: string, isWindows: bool)
    requires model in Sizes
    ensures Resolve(model, language, task, isWindows).Ok?
  {
    var key := KeyAndTask(model, language, task, isWindows).0;
    if language == "en" {
      assert key == model + ".en";
      if model == "tiny" { assert key == "tiny.en"; }
      else if model == "base" { assert key == "base.en"; }
      else if model == "small" { assert key == "small.en"; }
      else if model == "medium" { assert key == "medium.en"; }
      else { assert key == "large.en"; }
    } else if language == "de" && model == "large" && !isWindows {
      assert key == "large" + ".de" == "large.de";
    }
    assert key in Table(isWindows);
  }

  /** German with the large model picks the German fine-tune on macOS only. */
  lemma GermanLarge(task: string)
    ensures Resolve("large", "de", task, false) == Ok(Resolution("large.de", "mlx-community/whisper-large-v3-turbo-german-f16", task))
    ensures Resolve("large", "de", task, true) == Ok(Resolution("large", "large-v3-turbo", task))
  {
    assert "large" + ".de" == "large.de";
  }

  /** A key that already carries `.en` gets a second suffix under English and
      is then missing from both tables. */
  lemma EnglishTwice(task: string, isWindows: bool)
    ensures Resolve("tiny.en", "en", task, isWindows) == Err(UnknownModel("tiny.en.en"))
  {
    assert "tiny.en" + ".en" == "tiny.en.en";
    assert "tiny.en.en" !in Table(isWindows);
  }
}
