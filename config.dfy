/** The settings the core reads, with the defaults of `Settings` in config.py. */
module Config {

  datatype Settings = Settings(
    llmMaxTokens: int,
    llmReasoningBudget: int,
    claude35Model: string,
    claude37Model: string)

  /** The defaults: 1028 output tokens, a reasoning budget of 1024, and the two model names. */
  const Defaults: Settings := Settings(1028, 1024, "claude-3-5-haiku-latest", "claude-3-7-sonnet-latest")
}
