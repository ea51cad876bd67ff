/**
 * The settings the answer engine reads from the environment. They are fixed
 * for a run, so every component takes them as one `Profile` value.
 */
module Config {
  /** One field per configuration constant the answer engine consults. */
  datatype Profile = Profile(
    firstName: string,                  // EASY_APPLY_FIRST_NAME
    lastName: string,                   // EASY_APPLY_LAST_NAME
    yearsDefault: string,               // EASY_APPLY_YEARS_DEFAULT
    currentCompany: string,             // EASY_APPLY_CURRENT_COMPANY
    currentTitle: string,               // EASY_APPLY_CURRENT_TITLE
    gender: string,                     // EASY_APPLY_GENDER
    useGeminiForCv: bool,               // USE_GEMINI_FOR_CV
    locationCity: string,               // DEFAULT_LOCATION_CITY
    noticePeriod: string,               // NOTICE_PERIOD_DEFAULT
    certifications: string,             // EASY_APPLY_CERTIFICATIONS, comma separated
    hybridAnswer: string,               // EASY_APPLY_HYBRID_ANSWER
    workAuthorizationAnswer: string,    // WORK_AUTHORIZATION_ANSWER
    workNeedSponsorshipAnswer: string,  // WORK_NEED_SPONSORSHIP_ANSWER
    workAuthorizationCountry: string,   // WORK_AUTHORIZATION_COUNTRY
    cvPath: string                      // CV_PATH
  )

  /** The values used when the environment sets nothing. */
  const Defaults: Profile := Profile(
    "", "", "3", "", "", "", true, "Casablanca", "3 months", "", "Yes", "No", "Yes", "Canada", "")
}
