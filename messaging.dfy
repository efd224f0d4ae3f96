// The chat bot's per-process state in `MessageResponse`: the table of each
// user's pending image, the S3 URL waiting to be saved with the next chat
// row, and the extra information given with an image, which prefixes the
// next message exactly once.

module Messaging {
  import opened Wrappers
  import opened Json

  /** One row of `chat_history` (its timestamp, `datetime.now()`, aside). */
  datatype ChatRow = ChatRow(
    userId: string,
    userMsg: string,
    rephraseMsg: Option<string>,
    image: Option<string>,
    history: Option<string>,
    response: string)

  /** `if self.user_info: msg = f"{self.user_info} | {msg}"; self.user_info = None`:
      the message to save and the `user_info` left behind. Only a non-empty
      text is truthy, so an empty one is neither used nor cleared. */
  function TagMessage(info: Option<string>, msg: string): (r: (string, Option<string>))
    ensures info.Some? && info.value != [] ==> r.1 == None && |r.0| == |info.value| + 3 + |msg|
    ensures !(info.Some? && info.value != []) ==> r == (msg, info)
  {
    if info.Some? && info.value != [] then (info.value + " | " + msg, None) else (msg, info)
  }

  /** The information is used by one message only: the message after it is
      saved as it is. */
  lemma TagOnce(info: Option<string>, msg: string, next: string)
    ensures TagMessage(TagMessage(info, msg).1, next) == (next, TagMessage(info, msg).1)
  {
  }

  /** A tagged message keeps the information in front and the message at
      the end, so both can be read back from it. */
  lemma TagMessageParts(info: string, msg: string)
    requires info != []
    ensures var t := TagMessage(Some(info), msg).0;
      && t[..|info|] == info && t[|info|..|info| + 3] == " | " && t[|info| + 3..] == msg
  {
  }

  /** `json.dumps(history) if history else None`. */
  function HistoryJson(history: string): (r: Option<string>)
    ensures r.Some? <==> history != []
  {
    if history != [] then Some(Quote(history)) else None
  }

  /** The stored history reads back, with `json.loads`, as the history. */
  lemma HistoryJsonRoundTrip(history: string)
    requires history != []
    ensures Decode(HistoryJson(history).value) == Some(JString(history))
  {
    var q := Quote(history);
    ValueOfQuote(history, "");
    assert q + "" == q;
    DecodeOfValue(q, JString(history));
  }

  class MessageResponse {
    /** `self.temp_images`: each user's pending image path. */
    var tempImages: map<string, string>
    /** `self.s3_url`, `None` while the attribute does not exist. */
    var s3Url: Option<string>
    /** `self.user_info`. */
    var userInfo: Option<string>
    /** The rows written to `chat_history`. */
    var chatRows: seq<ChatRow>

    constructor ()
      ensures tempImages == map[] && s3Url == None && userInfo == None && chatRows == []
    {
      tempImages := map[];
      s3Url := None;
      userInfo := None;
      chatRows := [];
    }

    /** `get_temp_image`: the path stored for the user, or `None`. */
    function GetTempImage(userId: string): (r: Option<string>)
      reads this
      ensures r.Some? <==> userId in tempImages
      ensures r.Some? ==> r.value == tempImages[userId]
    {
      if userId in tempImages then Some(tempImages[userId]) else None
    }

    /** `store_temp_image`: the user's path is replaced, every other user's
        kept, and the S3 URL becomes the one given. */
    method StoreTempImage(userId: string, imagePath: string, url: string)
      modifies this
      ensures GetTempImage(userId) == Some(imagePath)
      ensures forall u :: u != userId ==> GetTempImage(u) == old(GetTempImage(u))
      ensures tempImages.Keys == old(tempImages.Keys) + {userId}
      ensures s3Url == Some(url)
      ensures userInfo == old(userInfo) && chatRows == old(chatRows)
    {
      tempImages := tempImages[userId := imagePath];
      s3Url := Some(url);
    }

    /** `clear_temp_image`: the user has no path afterwards, every other
        user keeps theirs; a user without one changes nothing. */
    method ClearTempImage(userId: string)
      modifies this
      ensures GetTempImage(userId) == None
      ensures forall u :: u != userId ==> GetTempImage(u) == old(GetTempImage(u))
      ensures tempImages.Keys == old(tempImages.Keys) - {userId}
      ensures userId !in old(tempImages) ==> tempImages == old(tempImages)
      ensures s3Url == old(s3Url) && userInfo == old(userInfo) && chatRows == old(chatRows)
    {
      if userId in tempImages {
        tempImages := tempImages - {userId};
      }
    }

    /** `process_image_with_info`: the information is kept for the next
        message before the image is read and sent; `answer` is the content
        of the API's reply (`None` where reading the file or the request
        raises), passed through. */
    method ProcessImageWithInfo(imagePath: string, additionalInfo: string, answer: Option<string>) returns (r: Option<string>)
      modifies this
      ensures userInfo == Some(additionalInfo)
      ensures r == answer
      ensures tempImages == old(tempImages) && s3Url == old(s3Url) && chatRows == old(chatRows)
    {
      userInfo := Some(additionalInfo);
      return answer;
    }

    /** `save_chat_history`: after a commit (`saved`), a row holds the
        message, the rephrased one, the pending S3 URL and the history as
        JSON, and the S3 URL is dropped; when the connection or the insert
        fails the error is logged and nothing changes. */
    method SaveChatHistory(userId: string, userMsg: string, rephraseMsg: Option<string>, history: string, response: string, saved: bool)
      modifies this
      ensures saved ==> chatRows == old(chatRows) + [ChatRow(userId, userMsg, rephraseMsg, old(s3Url), HistoryJson(history), response)]
      ensures saved ==> s3Url == None
      ensures !saved ==> chatRows == old(chatRows) && s3Url == old(s3Url)
      ensures tempImages == old(tempImages) && userInfo == old(userInfo)
    {
      if !saved {
        return;
      }
      chatRows := chatRows + [ChatRow(userId, userMsg, rephraseMsg, s3Url, HistoryJson(history), response)];
      s3Url := None;
    }

    /** `Perplexity_response`, with the chains as parameters: `history` is
        the memory's history, `rephrased` what `rephrase_user_input` returns
        (it returns the message itself when its chain fails), `reply` the
        conversation chain's response (`None` where `invoke` raises) and
        `further` what `further_question` returns. On success the message,
        prefixed by any pending information, is saved and the reply and the
        further questions are returned; when `invoke` raises, the pair
        ("Error", "Error") is returned and nothing changes. */
    method PerplexityResponse(userId: string, msg: string, rephrase: bool, history: string, rephrased: string,
                              reply: Option<string>, further: string, saved: bool)
      returns (answer: string, questions: string)
      modifies this
      ensures reply.None? ==> answer == "Error" && questions == "Error"
      ensures reply.None? ==> userInfo == old(userInfo) && chatRows == old(chatRows) && s3Url == old(s3Url)
      ensures reply.Some? ==> answer == reply.value && questions == further
      ensures reply.Some? ==> userInfo == TagMessage(old(userInfo), msg).1
      ensures reply.Some? && saved ==>
        chatRows == old(chatRows) + [ChatRow(userId, TagMessage(old(userInfo), msg).0,
                                             if rephrase then Some(rephrased) else None,
                                             old(s3Url), HistoryJson(history), reply.value)]
        && s3Url == None
      ensures reply.Some? && !saved ==> chatRows == old(chatRows) && s3Url == old(s3Url)
      ensures tempImages == old(tempImages)
    {
      var rephrasedMsg: Option<string> := if rephrase then Some(rephrased) else None;
      if reply.None? {
        return "Error", "Error";
      }
      var tagged := TagMessage(userInfo, msg);
      userInfo := tagged.1;
      SaveChatHistory(userId, tagged.0, rephrasedMsg, history, reply.value, saved);
      return reply.value, further;
    }
  }
}
