/** UpstageChatResponseDto: the reply of the chat-completion API and the
    content the service reads from it. */
module UpstageChatResponse {
  import opened Wrappers

  datatype Message = Message(content: Option<string>)
  datatype Choice = Choice(message: Option<Message>)
  datatype ChatResponse = ChatResponse(choices: Option<seq<Choice>>)

  /** getContent: the first choice's message content; null when the list is
      null or empty or the first choice has no message. */
  function GetContent(response: ChatResponse): (content: Option<string>)
    ensures response.choices.None? || response.choices.value == [] ==> content.None?
    ensures response.choices.Some? && response.choices.value != [] ==>
              var first := response.choices.value[0];
              && (first.message.None? ==> content.None?)
              && (first.message.Some? ==> content == first.message.value.content)
  {
    if response.choices.Some? && response.choices.value != [] && response.choices.value[0].message.Some? then
      response.choices.value[0].message.value.content
    else None
  }

  /** Choices after the first are ignored. */
  lemma FirstChoiceOnly(first: Choice, rest: seq<Choice>)
    ensures GetContent(ChatResponse(Some([first] + rest))) == GetContent(ChatResponse(Some([first])))
  {
  }
}
