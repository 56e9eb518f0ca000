/**
 * The completion client object (`OpenRouterChat`) and the two text files it
 * reads and writes: the knowledge base and the accumulated suggestions.
 * A file is None until something writes it.
 */
module Client {
  import opened Wrappers

  class OpenRouterChat {
    /** The model identifier sent with every request. */
    const model: string
    var knowledgeBaseFile: Option<string>
    var suggestionsFile: Option<string>

    constructor (model: string, knowledgeBaseFile: Option<string>, suggestionsFile: Option<string>)
      ensures this.model == model
      ensures this.knowledgeBaseFile == knowledgeBaseFile && this.suggestionsFile == suggestionsFile
    {
      this.model := model;
      this.knowledgeBaseFile := knowledgeBaseFile;
      this.suggestionsFile := suggestionsFile;
    }

    /** `load_knowledge_base`: the file's text, empty when the file is missing. */
    function LoadKnowledgeBase(): (s: string)
      reads this
      ensures knowledgeBaseFile.None? ==> s == ""
    {
      knowledgeBaseFile.GetOr("")
    }

    /** `load_suggestions`: the file's text, empty when the file is missing. */
    function LoadSuggestions(): (s: string)
      reads this
      ensures suggestionsFile.None? ==> s == ""
    {
      suggestionsFile.GetOr("")
    }

    /** `save_knowledge_base`: replaces the whole file. */
    method SaveKnowledgeBase(content: string)
      modifies this
      ensures knowledgeBaseFile == Some(content) && LoadKnowledgeBase() == content
      ensures suggestionsFile == old(suggestionsFile)
    {
      knowledgeBaseFile := Some(content);
    }

    /** `save_suggestions`: replaces the whole file. */
    method SaveSuggestions(content: string)
      modifies this
      ensures suggestionsFile == Some(content) && LoadSuggestions() == content
      ensures knowledgeBaseFile == old(knowledgeBaseFile)
    {
      suggestionsFile := Some(content);
    }
  }
}
