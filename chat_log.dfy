/** The chat log's fixed texts and the pure parts of `triggerChat`. */
module ChatLog {
  import opened Wrappers
  import opened GraphTypes

  /** The model message written when the chat request fails. */
  const ApologyText: string := "I'm having trouble connecting to the library archives right now."

  /** The single model message `resetChat` leaves. */
  const ResetGreeting: string := "New page. I am ready to record your observations."

  /** The node title the store starts with. */
  const InitialNodeTitle: string := "Leaf Venation Patterns"

  /** The filler conversation the store starts with, model first. */
  const InitialHistory: seq<ChatMessage> := [
    ChatMessage(Model, "Leaf venation—the arrangement of veins in a leaf blade—is critical for mechanical support and the transport of water and nutrients. \n\nIn this specimen, we see a reticulate (net-like) pattern characteristic of dicots. The primary midrib branches into secondary and tertiary veins, forming a complex mesh that ensures redundancy; if one path is damaged by insects, resources can bypass the injury. This density is often correlated with the plant's hydraulic capacity and its ability to photosynthesize in high-light environments."),
    ChatMessage(User, "That makes sense. I noticed the veins near the margin are much denser than the ones near the midrib. Is that normal?"),
    ChatMessage(Model, "Yes, that is a common adaptation. Increased vein density at the margins helps prevent desiccation (drying out) where the leaf is most vulnerable to wind and evaporation. It reinforces the structural integrity of the leaf edge, preventing tearing.")
  ]

  const PromptLead: string := "Tell me about "
  /** Joins the node's title to the title of the node it was reached from. */
  const ContextLink: string := " in the context of "

  /**
    The user prompt `triggerChat` appends: the specific question when one is
    given and non-empty, otherwise a request about the node in its context.
  */
  function Prompt(nodeTitle: string, contextTitle: string, specificQuestion: Option<string>): (prompt: string)
    ensures |prompt| > 0
    ensures specificQuestion.Some? && specificQuestion.value != "" ==> prompt == specificQuestion.value
    ensures !(specificQuestion.Some? && specificQuestion.value != "") ==>
      |prompt| > |PromptLead| + |nodeTitle| &&
      prompt[..|PromptLead|] == PromptLead &&
      prompt[|PromptLead|..|PromptLead| + |nodeTitle|] == nodeTitle &&
      prompt[|prompt| - 1] == '.'
    ensures !(specificQuestion.Some? && specificQuestion.value != "") ==>
      |prompt| == |PromptLead| + |nodeTitle| + |ContextLink| + |contextTitle| + 1 &&
      prompt[|PromptLead| + |nodeTitle|..|PromptLead| + |nodeTitle| + |ContextLink|] == ContextLink &&
      prompt[|prompt| - 1 - |contextTitle|..|prompt| - 1] == contextTitle
  {
    if specificQuestion.Some? && specificQuestion.value != "" then specificQuestion.value
    else PromptLead + nodeTitle + ContextLink + contextTitle + "."
  }

  /** How the chat request ended: the response text, or any failure (network, non-OK status, bad body). */
  datatype ChatOutcome = Answered(response: string) | ChatFailed

  /** The single model message a finished chat request appends. */
  function ReplyMessage(outcome: ChatOutcome): (msg: ChatMessage)
    ensures msg.role == Model
    ensures outcome.Answered? ==> msg.content == outcome.response
    ensures outcome.ChatFailed? ==> msg.content == ApologyText
  {
    ChatMessage(Model, if outcome.Answered? then outcome.response else ApologyText)
  }

  /** The body of the chat request. */
  datatype ChatRequest = ChatRequest(message: string, history: seq<ChatMessage>)
}
