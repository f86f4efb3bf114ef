/** The provider registry (lib/ai/providers.ts): the configuration read from the
    environment, the one model instance built from it, and the table that binds
    the four model roles, with test fixtures substituted under test. */
module Providers {
  import opened Js
  import opened ModelConfig

  /** The process environment, as the variables that are set. */
  type Env = map<string, string>

  const ChatModel: string := "chat-model"
  const ChatModelReasoning: string := "chat-model-reasoning"
  const TitleModel: string := "title-model"
  const ArtifactModel: string := "artifact-model"

  /** The four role names both tables bind. */
  const Roles: set<string> := {ChatModel, ChatModelReasoning, TitleModel, ArtifactModel}

  const ReasoningTag: string := "think"

  /** `process.env[name]`: undefined when the variable is not set. */
  function EnvValue(env: Env, name: string): Option<string>
  {
    if name in env then Some(env[name]) else None
  }

  /** modelConfig: the provider kind is MODEL_PROVIDER, or `ollama` when it is unset or
      empty; the other three settings are passed through as they are. */
  function ModelConfigFromEnv(env: Env): (c: Config)
    ensures "MODEL_PROVIDER" !in env ==> c.provider == "ollama"
    ensures "MODEL_PROVIDER" in env && env["MODEL_PROVIDER"] == "" ==> c.provider == "ollama"
    ensures "MODEL_PROVIDER" in env && env["MODEL_PROVIDER"] != "" ==> c.provider == env["MODEL_PROVIDER"]
    ensures c.provider != ""
    ensures c.openaiApiKey == EnvValue(env, "OPENAI_API_KEY")
    ensures c.ollamaBaseUrl == EnvValue(env, "OLLAMA_BASE_URL")
    ensures c.ollamaModel == EnvValue(env, "OLLAMA_MODEL")
  {
    Config(
      OrElse(EnvValue(env, "MODEL_PROVIDER"), OllamaProviderKind),
      EnvValue(env, "OPENAI_API_KEY"),
      EnvValue(env, "OLLAMA_BASE_URL"),
      EnvValue(env, "OLLAMA_MODEL"))
  }

  /** What a role is bound to: the model instance itself, the instance wrapped with the
      reasoning-extraction middleware for a tag, or a named test fixture. */
  datatype Binding =
    | Model(model: LanguageModel)
    | WithReasoning(model: LanguageModel, tagName: string)
    | Fixture(name: string)

  /** The model instance a binding runs on, if it runs on a config-built one. */
  function BoundModel(b: Binding): Option<LanguageModel>
  {
    match b
    case Model(m) => Some(m)
    case WithReasoning(m, _) => Some(m)
    case Fixture(_) => None
  }

  /** The module's state after loading: the one model instance created from the
      configuration, and the role table of `myProvider`. */
  datatype Registry = Registry(instance: LanguageModel, languageModels: map<string, Binding>)

  /** The fixture table used under test. */
  function TestBindings(): map<string, Binding>
  {
    map[ChatModel := Fixture("chatModel"),
        ChatModelReasoning := Fixture("reasoningModel"),
        TitleModel := Fixture("titleModel"),
        ArtifactModel := Fixture("artifactModel")]
  }

  /** The table used outside tests: every role runs on the one instance. */
  function LiveBindings(instance: LanguageModel): map<string, Binding>
  {
    map[ChatModel := Model(instance),
        ChatModelReasoning := WithReasoning(instance, ReasoningTag),
        TitleModel := Model(instance),
        ArtifactModel := Model(instance)]
  }

  /** Loading the module: the model instance is created once from the environment's
      configuration, whichever table is then chosen; the test flag picks the fixture
      table or the live one. */
  function LoadProviders(isTest: bool, env: Env): (r: Registry)
    ensures r.instance == CreateModelProvider(ModelConfigFromEnv(env))
    ensures r.languageModels.Keys == {"chat-model", "chat-model-reasoning", "title-model", "artifact-model"}
    ensures !isTest ==> forall role :: role in r.languageModels ==> BoundModel(r.languageModels[role]) == Some(r.instance)
    ensures isTest ==> forall role :: role in r.languageModels ==> r.languageModels[role].Fixture?
  {
    var instance := CreateModelProvider(ModelConfigFromEnv(env));
    Registry(instance, if isTest then TestBindings() else LiveBindings(instance))
  }

  /** Outside tests, chat, title and artifact are bound to the instance itself and
      reasoning to the same instance wrapped with the `think` middleware; no other
      role is wrapped. */
  lemma LiveRolesShareOneInstance(env: Env)
    ensures var r := LoadProviders(false, env);
            && r.languageModels["chat-model"] == Model(r.instance)
            && r.languageModels["title-model"] == Model(r.instance)
            && r.languageModels["artifact-model"] == Model(r.instance)
            && r.languageModels["chat-model-reasoning"] == WithReasoning(r.instance, "think")
            && (forall role :: role in r.languageModels ==>
                  (r.languageModels[role].WithReasoning? <==> role == "chat-model-reasoning"))
  {
  }

  /** Under test every role has its own fixture (no two roles share one), and the
      config-built instance backs no role. */
  lemma TestRolesUseDistinctFixtures(env: Env)
    ensures var r := LoadProviders(true, env);
            && (forall a, b :: a in r.languageModels && b in r.languageModels && a != b ==>
                  r.languageModels[a] != r.languageModels[b])
            && (forall role :: role in r.languageModels ==> BoundModel(r.languageModels[role]).None?)
  {
  }

  /** Both branches bind exactly the same role names, whatever the environment. */
  lemma BothBranchesBindSameRoles(env1: Env, env2: Env)
    ensures LoadProviders(true, env1).languageModels.Keys == LoadProviders(false, env2).languageModels.Keys
  {
  }

  /** With MODEL_PROVIDER unset, every live role runs on the daemon adapter, with the
      configured or default model and host. */
  lemma DefaultsToDaemon(env: Env)
    requires "MODEL_PROVIDER" !in env
    ensures var r := LoadProviders(false, env);
            && r.instance.Ollama?
            && r.instance.adapter.modelId == OrElse(EnvValue(env, "OLLAMA_MODEL"), "llama2")
            && r.instance.adapter.client.host == OrElse(EnvValue(env, "OLLAMA_BASE_URL"), "http://localhost:11434")
            && forall role :: role in r.languageModels ==> BoundModel(r.languageModels[role]).value.Ollama?
  {
  }
}
