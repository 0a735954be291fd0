/** The request payloads, after Symfony has mapped and validated them. The
    validation constraints themselves are not part of this model. */
module Dto {
  import opened Php

  datatype UserCreateDto = UserCreateDto(email: string, password: string, name: string, role: string)

  /** A `null` field means "leave unchanged". */
  datatype UserUpdateDto = UserUpdateDto(email: Option<string>, name: Option<string>, role: Option<string>)

  datatype ArticleCreateDto = ArticleCreateDto(title: string, content: string)

  /** A `null` field means "leave unchanged". */
  datatype ArticleUpdateDto = ArticleUpdateDto(title: Option<string>, content: Option<string>)
}
