/** The static provider catalog: provider key, its models as name/label pairs, and
    its icon path, in declaration order. API keys read from the environment are omitted. */
module Catalog {
  import opened ModelSelector

  datatype Entry = Entry(key: string, models: seq<Model>, icon: string)

  const Config: seq<Entry> := [
    Entry("OpenAI", [Model("gpt-5", "GPT-5"), Model("gpt-5.1", "GPT-5.1")], "public/icons/openai.svg"),
    Entry("Anthropic", [Model("claude-sonnet-4-5", "Claude Sonnet 4.5")], "public/icons/claude.svg"),
    Entry("Google", [Model("gemini-2-5-pro", "Gemini 2.5 Pro")], "public/icons/gemini.svg")
  ]

  /** Three providers, keyed OpenAI, Anthropic, Google in that order, each offering a model. */
  lemma ConfigShape()
    ensures |Config| == 3
    ensures Config[0].key == "OpenAI" && Config[1].key == "Anthropic" && Config[2].key == "Google"
    ensures forall i :: 0 <= i < |Config| ==> |Config[i].models| > 0
  {
  }

  /** OpenAI offers `gpt-5` then `gpt-5.1`; `claude-sonnet-4-5` is Anthropic's, labelled "Claude Sonnet 4.5". */
  lemma ConfigModels()
    ensures [Config[0].models[0].name, Config[0].models[1].name] == ["gpt-5", "gpt-5.1"] && |Config[0].models| == 2
    ensures Config[1].models == [Model("claude-sonnet-4-5", "Claude Sonnet 4.5")]
  {
  }

  /** No model name occurs twice across the catalog. */
  lemma ConfigModelNamesUnique()
    ensures forall i, j, k, l ::
              0 <= i < |Config| && 0 <= j < |Config[i].models| && 0 <= k < |Config| && 0 <= l < |Config[k].models|
              && Config[i].models[j].name == Config[k].models[l].name
              ==> i == k && j == l
  {
    assert "gpt-5" != "gpt-5.1";
    assert "gpt-5"[4] != "claude-sonnet-4-5"[4];
  }
}
